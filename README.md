# CodeCheck problem pipeline — a Dafny model

This project models the server core of CodeCheck, the service that stores
programming problems, checks uploaded problems and grades student
submissions:

- **`CodeCheck`** (`code_check.dfy`) covers problem parameterization and storage:
  - A parametric problem carries a `param.js` script. Every other file, except binaries and `param.js` itself, is a template. In a template, text between the script's two delimiters (`delimiters[0]` and `delimiters[1]`) is replaced by the value of that expression.
  - `replaceParametersInFile` is the delimiter scan. The model keeps its loop as a `while` loop and proves it against a template parser (`Substitution`).
  - The bundle operations are modelled on a `FileMap` class, because Java passes the map by reference and updates it in place. They are `replaceParametersInDirectory`, the problem load/save, `run` and `checkAndSave`.
- **`Substitution`** (`substitution.dfy`) gives the meaning of the scan:
  - Reading a file as a `Template` is the parser `Parse`. The text the template stands for is `Expand`.
  - On success, the scan returns the expansion of a well-formed template that renders back to the file. Conversely, every well-formed template is accepted.
  - The scan fails on an unmatched or a nested left delimiter.
  - The scan's `to == -1` test reads "no site seen yet" correctly only when the right delimiter is one character long. With a longer right delimiter, a file without any left delimiter is copied through instead of given up on. For UTF-8 text the directory result is the same either way (`UndelimitedFileKept`).
- **`ProblemConnector`** (`problem_connector.dfy`) is the local problem store:
  - Problem `key` of repository `repo` is the file `root.resolve(repo).resolve(key + ".zip")`. The store is modelled as a map from each file's path below the root to its bytes, and the connection classes update that map.
  - Because `repo` and `key` are resolved as paths, a separator in either one reaches other directories. Key `a/b` of repository `r` is the same file as key `b` of repository `r/a` (`NestedKeyAliases`). Problems with single-name keys, such as the generated ids in the repository `ext`, are independent of each other (`WriteKeepsOthers`).
  - `delete` removes the directory `<repo>/<key>`, which is not the archive that `read` and `write` use. `DeleteKeepsArchive` proves that a deleted problem stays readable. What `delete` does remove is the repository `<repo>/<key>` (`DeleteRemovesNested`).
- **`Upload`** (`upload.dfy`) is the upload controller:
  - It collects numbered form fields (`filename<n>` / `contents<n>`) or takes an unzipped archive whose `_inputs/` prefixes `fixZip` strips.
  - It sets the `edit.key`, checks the problem and saves it to the `ext` repository. It checks edit keys and builds the edit view.
- **`CheckService`** (`check_service.dfy`) holds the service endpoints:
  - reports of graded runs, with their fallback messages;
  - the echo of a form post;
  - the JSON report and report archive of an NJS check; the student work that `checkNJS` also builds is never used, so the result leaves it out.
- **`Util`** (`util.dfy`) builds the relative URL prefix (`../..` on `localhost`, scheme and host elsewhere) and the session cookie.
- **`JavaText`** (`java_text.dfy`) and **`Bundles`** (`bundles.dfy`) model the `String` and `java.nio.file.Path` operations the core relies on:
  - `indexOf`, `contains`, `trim`, `replaceAll("\r\n", "\n")`, decimal rendering and character counting;
  - `getName(0)`, `getNameCount`, `subpath`, `getFileName` and `Path.of`.

The collaborators outside the core are the values of the `Engines` datatype. They are the zip codec, the Nashorn engine after `param.js` has run, the grading run (`Main.run` and its `Plan`), and the solution and input views of a `Problem`. Randomness and identifiers are parameters: the student id that seeds the script, and fresh problem ids and edit keys. So are clocks (the elapsed-time text) and iteration orders.

## Model

| member | source | states |
|---|---|---|
| JavaText.IndexOfFirst | src/main/java/models/CodeCheck.java:108 | `indexOf(p, k)` is an occurrence of `p`, and no occurrence lies between `k` and it; -1 means no occurrence at or after `k` |
| JavaText.IndexOfIsFirst | src/main/java/models/CodeCheck.java:116 | the first occurrence at or after the start index is exactly what `indexOf` returns |
| JavaText.ContainsIff | src/main/java/models/CodeCheck.java:122 | `s.contains(p)` holds exactly when `p` occurs at some index of `s` |
| JavaText.TrimIff | src/main/java/controllers/Upload.java:171 | `t == s.trim()` exactly when `t` is trimmed and `s` is `t` with only characters up to the space around it (both directions) |
| JavaText.TrimEmptyIff | src/main/java/controllers/Upload.java:70 | `s.trim()` is empty exactly when every character of `s` is at most a space |
| JavaText.ReplaceCrlfDropsCr | src/main/java/controllers/Upload.java:71 | replacing CR LF by LF removes exactly the carriage returns that precede a line feed |
| JavaText.DecimalInjective | src/main/java/controllers/Upload.java:68 | distinct field numbers have distinct decimal renderings, so `"filename" + n` names one field |
| JavaText.CountAppend | src/main/java/models/Util.java:24 | the slash count of a concatenation is the sum of the counts |
| Bundles.DropFirstName | src/main/java/controllers/Upload.java:203-205 | for a path with more than one name, `subpath(1, n)` is what follows the first name and its separator |
| Bundles.LastNameSuffix | src/main/java/models/CodeCheck.java:85 | the file name a path is matched on is a separator-free suffix of it, and a one-name path is its own file name |
| Bundles.Names | src/main/java/controllers/Upload.java:72 | the names `Path.of` splits a string into are non-empty and separator-free |
| Bundles.PathOfIsNormal | src/main/java/controllers/Upload.java:72 | `Path.of(s).toString()` has no leading, trailing or doubled separator |
| Bundles.PathOfNormal | src/main/java/controllers/Upload.java:72 | `Path.of` leaves an already normal path string unchanged |
| Substitution.NextSite | src/main/java/models/CodeCheck.java:108-124 | one scan step that finds a site moves strictly forward and stays inside the text |
| Substitution.ParseSound | src/main/java/models/CodeCheck.java:107-127 | what the scan parses is a well-formed template that renders back to exactly the scanned text |
| Substitution.ParseComplete | src/main/java/models/CodeCheck.java:107-127 | the rendering of any well-formed template is parsed back to that template |
| Substitution.UnmatchedLeftFails | src/main/java/models/CodeCheck.java:116-117 | a left delimiter with no right delimiter ending after it makes the parse fail |
| Substitution.NestedLeftFails | src/main/java/models/CodeCheck.java:121-122 | two left delimiters with no right delimiter between them make the parse fail |
| Substitution.ScanToExpands | src/main/java/models/CodeCheck.java:104-127 | the loop's scan from any state is the expansion of the rest of the text with the output so far in front, except for the `to == -1` test |
| Substitution.SubstituteScans | src/main/java/models/CodeCheck.java:104-127 | the file result is parse-then-expand, except that a text without left delimiter is given up on when the right delimiter has length 1 |
| Substitution.ExpandTextParses | src/main/java/models/CodeCheck.java:107-127 | substituting while scanning equals parsing the whole text and then expanding the template |
| Substitution.SubstituteWithoutDelimiter | src/main/java/models/CodeCheck.java:109-114 | a text without left delimiter is returned unchanged, or `null` when the right delimiter has length 1 |
| Substitution.SubstituteSound | src/main/java/models/CodeCheck.java:97-128 | a successful substitution is the expansion of a well-formed template whose rendering is the file |
| Substitution.SubstituteComplete | src/main/java/models/CodeCheck.java:97-128 | a well-formed template (with a site, or with a right delimiter longer than 1) is substituted to its expansion |
| Substitution.UnmatchedLeftRejects | src/main/java/models/CodeCheck.java:117 | an unmatched left delimiter makes `replaceParametersInFile` return `null` |
| Substitution.NestedLeftRejects | src/main/java/models/CodeCheck.java:122 | a nested left delimiter makes `replaceParametersInFile` return `null` |
| ProblemConnector.BlankIff | src/main/java/models/ProblemConnector.java:44 | the local path is refused exactly when it is missing or all characters are at most a space |
| ProblemConnector.ConfigFailure | src/main/java/models/ProblemConnector.java:42-47 | reading and checking the setting fails exactly when it is blank: in the lookup itself for a missing or empty value, and with `IllegalArgumentException` for a value of spaces |
| ProblemConnector.Deleted | src/main/java/models/ProblemConnector.java:90-99 | after `delete`, what remains is part of the old store with nothing inside the resolved directory `<repo>/<key>` (nothing at all when that directory is the root), and every problem whose archive lies outside that directory reads as before |
| ProblemConnector.ArchiveNameInjective | src/main/java/models/ProblemConnector.java:79 | different keys are stored under different archive names |
| ProblemConnector.ReadAfterWrite | src/main/java/models/ProblemConnector.java:76-87 | reading a problem right after writing it returns the bytes written |
| ProblemConnector.WriteReachesAliases | src/main/java/models/ProblemConnector.java:76-87 | after a write, every problem that resolves to the written file reads the new bytes, and every other problem reads what it did before |
| ProblemConnector.NestedKeyAliases | src/main/java/models/ProblemConnector.java:77-79 | key `<sub>/<key>` of a repository and key `<key>` of its sub-repository `<sub>` resolve to the same archive |
| ProblemConnector.SingleNameResolves | src/main/java/models/ProblemConnector.java:77-92 | for a normal repository path and a single-name key, the archive is `<repo>/<key>.zip` and the directory `<repo>/<key>` |
| ProblemConnector.SingleNamesDistinct | src/main/java/models/ProblemConnector.java:77-79 | different problems with single-name keys in normal repositories resolve to different archives |
| ProblemConnector.WriteKeepsOthers | src/main/java/models/ProblemConnector.java:76-87 | a write leaves every other problem with a single-name key in a normal repository as it was, present or missing |
| ProblemConnector.DeleteKeepsArchive | src/main/java/models/ProblemConnector.java:90-99 | for a single-name key, `delete` removes the directory `<repo>/<key>`, not the archive `<repo>/<key>.zip`, so the problem stays readable |
| ProblemConnector.DeleteRemovesNested | src/main/java/models/ProblemConnector.java:90-99 | `delete(repo, key)` removes every problem of the repository `<repo>/<key>` |
| ProblemConnector.ProblemLocalConnection.constructor | src/main/java/models/ProblemConnector.java:61-66 | a connection over a non-blank local path keeps that path as its root |
| ProblemConnector.ProblemLocalConnection.Connect | src/main/java/models/ProblemConnector.java:61-66 | construction fails exactly when the local path is blank, with the failure `ConfigFailure` names; otherwise the root is the local path |
| ProblemConnector.ProblemLocalConnection.Write | src/main/java/models/ProblemConnector.java:76-87 | the store afterwards is the old store with the resolved file `<repo>/<key>.zip` set to the contents |
| ProblemConnector.ProblemLocalConnection.Delete | src/main/java/models/ProblemConnector.java:90-99 | the store afterwards is the old store without the directory `<repo>/<key>` |
| ProblemConnector.ProblemLocalConnection.Read | src/main/java/models/ProblemConnector.java:102-111 | returns the stored archive or the error for the missing file |
| ProblemConnector.ProblemConnector.Create | src/main/java/models/ProblemConnector.java:22-28 | the connector is created over a fresh local delegate exactly when the local path is not blank, and otherwise fails as `ConfigFailure` says |
| ProblemConnector.ProblemConnector.Write | src/main/java/models/ProblemConnector.java:30-32 | forwards to the delegate: the delegate's store gets the new archive |
| ProblemConnector.ProblemConnector.Delete | src/main/java/models/ProblemConnector.java:34-36 | forwards to the delegate: the delegate's store loses the directory |
| ProblemConnector.ProblemConnector.Read | src/main/java/models/ProblemConnector.java:38-40 | forwards to the delegate: what the delegate's store holds for the problem |
| CodeCheck.Parameterize | src/main/java/models/CodeCheck.java:75-95 | the bundle keeps its paths; without `param.js` it is unchanged, and excluded files are never rewritten |
| CodeCheck.ChangedOnlyBySubstitution | src/main/java/models/CodeCheck.java:78-90 | a file changes only if the bundle has `param.js`, the file is not excluded and its scan succeeds; its new contents are the scan's result |
| CodeCheck.ParamJsKept | src/main/java/models/CodeCheck.java:85 | `param.js` itself is never rewritten |
| CodeCheck.UndelimitedFileKept | src/main/java/models/CodeCheck.java:85-89 | a file without the left delimiter keeps its contents |
| CodeCheck.RewrittenFileExpands | src/main/java/models/CodeCheck.java:85-89 | a rewritten file was a well-formed template, and its new contents are that template's expansion |
| CodeCheck.SaveAfterParameterize | src/main/java/models/CodeCheck.java:144-146 | parameterizing does not change the save decision, and a bundle that is saved was left unchanged by parameterization |
| CodeCheck.Sanitize | src/main/java/models/CodeCheck.java:149 | the sanitized label holds only letters, digits, `_`, `/` and `-`, and is no longer than the input |
| CodeCheck.SanitizeCounts | src/main/java/models/CodeCheck.java:149 | every allowed character is kept as often as it occurs, and every other character is dropped |
| CodeCheck.SanitizeIdempotent | src/main/java/models/CodeCheck.java:149 | sanitizing twice is the same as sanitizing once |
| CodeCheck.MetaData | src/main/java/models/CodeCheck.java:147-149 | the run metadata has exactly the keys `User` (the ccid) and `Problem` (a label of allowed characters) |
| CodeCheck.RunCaches | src/main/java/models/CodeCheck.java:142-158 | a run changes the store only for a stored problem that has neither `param.js` nor `_outputs` files, and then only the file of that problem's archive, which afterwards holds the stored problem plus the solution outputs of the run |
| CodeCheck.PutAll | src/main/java/models/CodeCheck.java:163-166 | the result has the keys of both maps, and each value comes from the second map where it has the key |
| CodeCheck.FileMap.constructor | src/main/java/models/CodeCheck.java:174 | a new map holding the given entries |
| CodeCheck.CodeCheck.constructor | src/main/java/models/CodeCheck.java:44-47 | the service over the given store |
| CodeCheck.CodeCheck.ReplaceParametersInFile | src/main/java/models/CodeCheck.java:97-128 | the loop's result is the substitution with the engine's delimiters, whose meaning is proved by the `Substitution` lemmas |
| CodeCheck.CodeCheck.ReplaceParametersInDirectory | src/main/java/models/CodeCheck.java:75-95 | returns whether the bundle has `param.js`, and updates the map in place to the parameterized bundle |
| CodeCheck.CodeCheck.LoadProblem | src/main/java/models/CodeCheck.java:130-135 | a fresh map holding the unzipped stored archive, or the store's error exactly when the archive is missing |
| CodeCheck.CodeCheck.LoadProblemForStudent | src/main/java/models/CodeCheck.java:69-73 | the stored problem parameterized for the student, or the store's error |
| CodeCheck.CodeCheck.SaveProblem | src/main/java/models/CodeCheck.java:137-140 | the store afterwards holds the zipped bundle as the problem's archive |
| CodeCheck.CodeCheck.Run | src/main/java/models/CodeCheck.java:142-158 | the report and the new store are those of `RunOutcome`: the parameterized problem grades the submission, and only a saveable problem is written back with its solution outputs |
| CodeCheck.CodeCheck.RunSubmission | src/main/java/models/CodeCheck.java:160-170 | the submission is graded as its own problem with empty metadata, and the store is untouched |
| CodeCheck.CodeCheck.CheckAndSave | src/main/java/models/CodeCheck.java:172-191 | the report is the self-check of the parameterized copy against its own solution and input files, and the original bundle is what is saved to `ext` |
| Upload.FilenameKeyInjective | src/main/java/controllers/Upload.java:68 | distinct field numbers give distinct `filename<n>` keys |
| Upload.FilenameKeysCount | src/main/java/controllers/Upload.java:68 | the fields `filename1` up to `filename<n-1>` are n-1 distinct keys |
| Upload.KeysBound | src/main/java/controllers/Upload.java:68-75 | the loop cannot run more rounds than the form has fields |
| Upload.FormFilesFails | src/main/java/controllers/Upload.java:65-75 | the field loop throws exactly when one of the fields it reads has no name value, or has a non-blank name without a contents value |
| Upload.FormFilesKeys | src/main/java/controllers/Upload.java:65-75 | the collected paths are exactly the paths of the fields with non-blank names |
| Upload.FormFilesLastWins | src/main/java/controllers/Upload.java:69-72 | a path named by no later field holds the CR LF-normalized contents of the field that named it |
| Upload.FormFilesKept | src/main/java/controllers/Upload.java:68-75 | a path that no later field names keeps what was collected before |
| Upload.Fixed | src/main/java/controllers/Upload.java:203-205 | a path of more than one name under `_inputs` loses that first name, and any other path is kept |
| Upload.FixedBundleKeys | src/main/java/controllers/Upload.java:198-209 | the fixed map's paths are exactly the fixed paths of the entries met |
| Upload.FixedBundleLastWins | src/main/java/controllers/Upload.java:198-209 | an entry whose fixed path no later entry shares keeps its contents under that path |
| Upload.FixedBundleNoInputs | src/main/java/controllers/Upload.java:198-209 | an archive without `_inputs` entries comes through `fixZip` unchanged |
| Upload.FixedBundleKeeps | src/main/java/controllers/Upload.java:198-209 | without `_inputs` entries every entry met keeps its path and contents |
| Upload.FixedBundleCovers | src/main/java/controllers/Upload.java:198-209 | over an iteration that visits every archive entry once, the fixed map holds exactly the fixed paths of all entries, and an entry whose fixed path no other entry shares keeps its contents |
| Upload.FixZip | src/main/java/controllers/Upload.java:198-209 | the loop over every entry, each visited once, builds the fixed map of the entries in that order |
| Upload.EditKeyMatchesIff | src/main/java/controllers/Upload.java:166-173 | a key matches exactly when it is trimmed and the stored `edit.key` is that key surrounded by strippable characters |
| Upload.EditableFiles | src/main/java/controllers/Upload.java:149-156 | the edit view gets exactly the files whose first name is not `_outputs`, without `edit.key`, each with its stored contents |
| Upload.Upload.constructor | src/main/java/controllers/Upload.java:26-27 | the controller over the given service |
| Upload.Upload.CollectFiles | src/main/java/controllers/Upload.java:65-75 | the loop over `filename1`, `filename2`, … returns the collected files, or fails where the field loop throws |
| Upload.Upload.CheckAndSaveProblem | src/main/java/controllers/Upload.java:175-196 | a tracer problem is saved unchecked; any other is checked and saved. The page shows the report or the success message, and the bundle is stored under `ext` |
| Upload.Upload.UploadFiles | src/main/java/controllers/Upload.java:59-84 | missing problem id gives 400 "No problem id" (what a direct POST gets, because `/files` has no `{problem}` template); a malformed form gives 500 with nothing stored; otherwise the form files, with `edit.key` overwritten by the given key, are checked and stored |
| Upload.Upload.UploadFilesAsWritten | src/main/java/controllers/Upload.java:28-35 | every request routed to the three-string overload ends in 500 with nothing stored: its call at line 35 passes three `String`s and resolves to itself, and the recursion, one generated id pair per frame, runs until the stack is exhausted |
| Upload.Upload.UploadProblem | src/main/java/controllers/Upload.java:116-131 | missing problem id gives 400; otherwise the fixed archive gets `edit.key` only if it has none, and is checked and stored; the stored paths are exactly `edit.key` and the fixed paths of all archive entries |
| Upload.Upload.CheckEditKey | src/main/java/controllers/Upload.java:166-173 | the store's error for a missing problem, else whether the stored `edit.key` matches once trimmed |
| Upload.Upload.EditKeySubmit | src/main/java/controllers/Upload.java:137-164 | the three 400 answers (no id, problem not found, wrong key); with the right key, the edit view with the editable files, the untrimmed stored key and the request as URL |
| Upload.Upload.EditedFilesAsWritten | src/main/java/controllers/Upload.java:33-53 | a missing problem or a wrong key gives the 400 answers; the right key forwards to the three-string overload and ends in 500 |
| Upload.Upload.EditedFiles | src/main/java/controllers/Upload.java:42-53 | a missing problem or a wrong key gives the 400 answers and stores nothing; with the right key the form's files are uploaded again under the same problem and key |
| Upload.Upload.EditedProblem | src/main/java/controllers/Upload.java:99-110 | a missing problem or a wrong key ("of problem") gives the 400 answers and stores nothing; with the right key the archive is uploaded again under the same problem and key |
| CheckService.FallbackNonEmpty | src/main/java/services/CheckService.java:35-38 | the `report == null \|\| report.length() == 0 ? fallback : report` choice (`Fallback`) with a non-empty fallback never answers empty, so replacing it a second time changes nothing |
| CheckService.TrailingJoined | src/main/java/services/CheckService.java:68-69 | appending every value with ", " and dropping the last two characters gives the values joined by ", " |
| CheckService.JoinedSnoc | src/main/java/services/CheckService.java:68 | joining one more value appends ", " and that value |
| CheckService.AppendValues | src/main/java/services/CheckService.java:68 | the inner loop appends every value followed by ", " |
| CheckService.AppendField | src/main/java/services/CheckService.java:67-70 | one field gives its line: the key, then ": " and the joined values when there are any (the bare key otherwise), then a line break |
| CheckService.RunFormPost | src/main/java/services/CheckService.java:63-74 | the report is the header followed by one line per field, in iteration order |
| CheckService.FormLineCount | src/main/java/services/CheckService.java:67-70 | a field without line breaks in its key and values gives exactly one line |
| CheckService.FormReportLines | src/main/java/services/CheckService.java:66-71 | the lines after the header are one per field |
| CheckService.CheckService.constructor | src/main/java/services/CheckService.java:28 | the service over the given pipeline |
| CheckService.CheckService.CheckHtml | src/main/java/services/CheckService.java:31-40 | the store's error, or the HTML report of the run with the timeout message in place of a missing or empty one; the store changes as the run changes it |
| CheckService.CheckService.Run | src/main/java/services/CheckService.java:42-51 | the text report of the submission graded on its own, or the timeout message |
| CheckService.CheckService.RunFileUpload | src/main/java/services/CheckService.java:53-61 | the file-upload report of the submission graded on its own, or "No report generated." |
| CheckService.CheckService.CopySubmission | src/main/java/services/CheckService.java:92-97 | every submission file is put back unchanged and copied, under its own path, into the archive and into the student work that is later dropped |
| CheckService.CheckService.CheckNjs | src/main/java/services/CheckService.java:88-108 | the store's error or a missing report fail; otherwise the JSON report with an archive of the submission plus `report.html`, and the store changes as the run changes it |
| Util.UpsShape | src/main/java/models/Util.java:22-28 | `k` steps up start with `..`, end with `.`, are 3k-1 characters long and hold k-1 slashes |
| Util.LocalPrefixClimbs | src/main/java/models/Util.java:22-28 | on `localhost` the prefix starts with `..`, never ends with `/`, and climbs one level per slash of the path (at least one) |
| Util.RemotePrefixScheme | src/main/java/models/Util.java:17-31 | elsewhere the prefix is `http://` or `https://` followed by the host, and it is `https` exactly when the proxy said so |
| Util.LocalPrefix | src/main/java/models/Util.java:23-28 | the `../` loop, with its last character dropped, yields `..` joined by `/` max(1, slashes) times |
| Util.PrefixAsWritten | src/main/java/models/Util.java:16-33 | with the header absent the call throws for every host; with it present, the expected prefix |
| Util.Prefix | src/main/java/models/Util.java:16-33 | the expected prefix, with an absent header read as "not https" |
| Util.ToInt32 | src/main/java/models/Util.java:42 | the `(int)` cast lands in the 32-bit range, agrees with its argument modulo 2^32, and keeps every value already in range |
| Util.BuildCookieLifetime | src/main/java/models/Util.java:41-52 | the cookie lives 15552000 seconds (180 days), for path `/`, HTTP-only, not secure, SameSite strict |

## Left out

- `CodeCheck.signZip`, `Util.toJson`, `CheckService.runJSON` and the Base64 `zip` field of `checkNJS` are not modelled. They are archive signing, JSON binding and encoding. `CheckNjs` stops at the archive's files, and the JSON report's `report` field is the parameter `reportOf`.
- The Nashorn script engine is not modelled. It is the function `boot(seed, paramJs)` from an expression to the text of its value. Script errors (`ScriptException`) and the engine's string conversion are not modelled.
- `com.horstmann.codecheck` (`Util.zip`, `Util.unzip`, `Util.filterNot`, `Main`, `Plan`, `Problem`) is not part of this model. Zip and grading are uninterpreted functions. `filterNot` is assumed to match `param.js` and the patterns `*.jar`, `*.gif`, `*.png`, `*.jpg`, `*.wav` against the file name (`Excluded`).
- Collaborators never throw in the model. Exceptions from grading, zipping or a failing `Files.write` are not modelled, so the 500 answers they would cause are not either. The stack-trace text of every 500 answer is not modelled.
- File contents are text. UTF-8 encoding and decoding are the identity. The unreachable `contents == null` test (`CodeCheck.java:98`) is not modelled.
- `CodeCheck.java:122` reads `toEval contains(leftDelimiter)`, missing the dot. It is modelled as `toEval.contains(leftDelimiter)`.
- Paths are normal strings of names separated by `/`. Absolute paths and roots are not distinguished from relative ones: `Path.of("/a")` is modelled as `a`.
- The path functions assume normal path keys. A collaborator could return a key that is not normal, such as `unzip` yielding `_inputs//x`. On such keys `Fixed`, `FirstName` and `NameCount` differ from `java.nio`: `Fixed` gives `/x` where Java gives `x`.
- In the store, `Resolve` joins the names of `repo` and `key`. An absolute `repo` or `key`, which `resolve` would take as it is, is not modelled. Neither are `.` and `..` names, which the file system resolves.
- A `write` to a key with a separator fails in Java unless the key's directory already exists, because only the repository's directory is created. Like every write failure, this is not modelled.
- `ProblemConnector.WriteKeepsOthers`, `ProblemConnector.SingleNamesDistinct` and `ProblemConnector.DeleteKeepsArchive` are stated for single-name keys in normal, non-empty repository paths. For other keys the store's files alias one another. `WriteReachesAliases` states that general case, and `DeleteRemovesNested` states what `delete` does remove.
- The configuration value is `Option<string>`, and `None` stands for a missing setting. Under MicroProfile Config, `getValue` throws `NoSuchElementException` for a missing or empty setting. This is `NoSuchElement` in `ConfigFailure`, so the source's `localPath == null` test never fires.
- Iteration orders are parameters or left open: the unzipped map's order for `fixZip` (visiting every entry once), and the form map's order for `runFormPost`. The copying loops of `run`, `checkAndSave`, `checkNJS` and `editKeySubmit` visit map keys in any order, which their results do not depend on.
- `CodeCheck.CodeCheck.ReplaceParametersInDirectory`: the engine's state across evaluations is not modelled. In the source, one seeded Nashorn engine evaluates every site of every file in turn. A site that draws `Math.random()` or assigns a variable therefore sees the evaluations before it, and so depends on the order in which `filterNot` yields the files. The model's `boot(seed, paramJs)` gives an expression the same value wherever it occurs.
- `CodeCheck.UndelimitedFileKept` holds for UTF-8 text only. A file that is not excluded and is not valid UTF-8 (a `.pdf` or `.class`, say) is decoded with replacement characters. With a right delimiter longer than one character and no left delimiter in the file, the scan returns that decoded text, and it is written back re-encoded. The file's bytes change, although the comments at `CodeCheck.java:98`, `110` and `117` show the intent to leave such files alone.
- Time is a parameter. The elapsed time rendered by `%5.0f` is the text `seconds`.
- `createPublicUID`, `createPrivateUID` and `createPronouncableUID` are not modelled. The ids and keys they would produce are parameters. So the two-argument `uploadProblem` (`Upload.java:91-93`) is covered only by `UploadProblem` with the generated id and key as arguments.
- The two `uploadFiles` endpoints share the path `/upload/files`. The three-string overload (`Upload.java:28-35`) reads only `request` and never the form; every request that reaches it, directly or from `editedFiles`, recurses (`UploadFilesAsWritten`). The form overload (`Upload.java:55-84`, `UploadFiles`) reads `problem` and `editKey` as path parameters of a path without those templates, so a direct POST gets a `null` id and the 400 "No problem id"; its storing branch is reachable only through the intended forwarding of `editedFiles` (`EditedFiles`). Which overload the REST runtime routes a direct POST to is not modelled.
- The keystore and `JarSigner` set-up in the `CodeCheck` constructor is not modelled. So are the `ResourceLoader` and logging.
- `ProblemLocalConnection` never fails to create its directories. `Util.deleteDirectory` is modelled only by what remains afterwards.
- Concurrency between requests sharing the singleton services is not modelled.
- `CheckService.CheckService.CheckNjs`: states the archive's files before signing, not the signed, Base64-encoded `zip` field.

## Findings

| source | as written | input that shows it | evidently intended | confidence | as-written member | corrected member |
|---|---|---|---|---|---|---|
| src/main/java/controllers/Upload.java:33-45 | `uploadFiles(String, String, String)` calls itself, because both generated ids are `String`s. `editedFiles` forwards to it with the right key, so the request recurses until `StackOverflowError`. That is not an `Exception`, so it escapes both handlers and the answer is 500 with nothing stored | a stored problem whose `edit.key` matches the submitted key; or any direct POST to `/upload/files` routed to this overload, so a new form upload never succeeds | forward to the form-upload overload: under fresh ids for a new upload, under the same problem and key for an edit | not executed; high | Upload.Upload.EditedFilesAsWritten | Upload.Upload.EditedFiles |
| src/main/java/models/Util.java:17 | the `X-Forwarded-Proto` values are read before the host is compared with `localhost`, and `getRequestHeader` returns `null` for an absent header, so `contains` throws | a request to `localhost` with no proxy in front, hence no `X-Forwarded-Proto` header | an absent header means "not https", and the `localhost` branch never needs it | not executed; medium (depends on the REST runtime returning `null` for an absent header) | Util.PrefixAsWritten | Util.Prefix |
