# kubeapply in Dafny

kubeapply is an HTTP service that runs `kubectl apply` for a client. The
client sends the flags and the uploaded files, and the service keeps an audit
trail for each request. This project models the decision logic behind one
apply request as immutable data and pure functions:

- **Command line** (`Flags`, `Commands`): the sorted key listing of the flag
  map, the `addFlag` dash rule, and how `unsafeCommand` builds the argument
  list. That includes the default `--filename=./ --recursive` and
  `--output=json` arguments and when they are suppressed. The `"-af"`
  comparison is kept as written, so a user's `f` or `-f` flag does not stop
  the default filename arguments.
- **Request identity and statefulness** (`Identity`, `Applies`): `init`
  assigns the id, time and `configurations/<date>/<unix>-<id>` directory
  exactly once and rebuilds the command line. `checkStateful` decides whether
  anything is persisted.
- **Paths** (`Paths`): `filepath.Join`, `filepath.Clean` and `filepath.Dir`
  on Unix paths, element by element.
- **Audit trail** (`Uploads`, `Audit`):
  - `checkUploads` refuses reserved, parent-relative and absolute names.
  - `configure` creates the directory, then writes the description, the
    uploads and the request dump in that order, stopping at the first failure.
  - The check looks at the raw name, but the write goes to the cleaned path,
    so "./description" gets past the check and lands on a record's path (see
    Findings). `Audit.Configure` and `Runs.Run` take the check as a
    `Uploads.Rule`. kubeapply is `Run(AsWritten, …)`. `PlainNames` is the
    corrected check, which also refuses names whose elements are not all
    plain (empty, "." or "..").
  - Errors and frames are proved under either rule. Claims about what the
    store holds assume `Audit.NoAlias`: every upload has a path of its own.
    The corrected check guarantees `NoAlias` (`Audit.RecordsApart`).
  - The file system is a map from the paths of its files to their contents;
    directories are implied by the files under them or given as existing.
    `os.MkdirAll` fails through a file, `ioutil.WriteFile` fails through a
    file or onto a directory, with Go's error texts. Other OS errors
    (permissions, a full disk) are an input that maps a path to its error
    text.
- **Running** (`Responses`, `Runs`): `Run` is one step over abstract effects.
  - The subprocess is a function from the invocation to its outcome (stdout,
    stderr, error).
  - `getExitStatus` and `embedError` turn that outcome into the response.
  - The response is recorded when the request is stateful.
- **JSON field decoders** (`Json`, `FlagValues`, `FileValues`):
  - `FlagValue` accepts a string, number or boolean as text, tried in that
    order. JSON null empties it.
  - `FileValue` keeps an object's raw text or a string's contents. JSON null
    passes as an object does and is kept as the text "null".
  - Both are modelled over an already classified JSON value, not over bytes.

Go maps iterate in no fixed order, so the loops over the uploads take the
visiting order as an input, an enumeration of the map's keys. The loops over
flags need no order: they go through `Keys`, which sorts. Go's
`sort.Strings` compares bytes; comparing Unicode code points orders UTF-8
strings the same way, so `Strings.Less` is Go's `<` on valid UTF-8 strings.

Where the code and its documentation disagree, the model follows the code:

- `Response.Dir` is set from the request's directory on every run that
  reaches the process (kubeapply.go:233), stateful or not.
- The test "not found program" (kubeapply_test.go:203-216) expects an empty
  `Stderr`. Yet `embedError` puts the start-up error's text there, because
  that error is not an exit error and stderr was empty. `RunExamples.RunNotFound`
  states what the code does.

## Model

| member | source | states |
|---|---|---|
| Strings.LessIrreflexive | kubeapply.go:45 | No string sorts before itself in Go's byte-wise order. |
| Strings.LessTransitive | kubeapply.go:45 | The byte-wise order used by sort.Strings is transitive. |
| Strings.LessTotal | kubeapply.go:45 | Any two distinct strings are ordered one way or the other. |
| Strings.SortedSet | kubeapply.go:38-47 | Collecting a set of keys and sorting gives each element exactly once, in strictly ascending order. |
| Strings.SortedUnique | kubeapply.go:38-47 | Two strictly ascending listings of the same elements are equal, so the sorted listing is unique. |
| Strings.JoinContains | kubeapply.go:396 | Every part appears inside strings.Join of the parts. |
| Flags.Keys | kubeapply.go:38-47 | Keys lists every flag name once (as many entries as the map has keys), in ascending byte order. |
| Flags.KeysCanonical | kubeapply.go:38-47 | Any strictly sorted listing of exactly the flag names is what Keys returns, so argument order does not depend on how the map was built. |
| Flags.AddFlagShape | kubeapply.go:164-174 | A normalised flag always starts with "-", ends with the key, and is at most two characters longer. |
| Strings.Utf8LengthOne | kubeapply.go:169 | A string is one byte long in UTF-8 exactly when it is a single character below U+0080. |
| Flags.AddFlagCases | kubeapply.go:164-174 | A key comes back unchanged exactly when it starts with "-". Otherwise a single ASCII character gets "-", and any other key gets "--", including a single character that takes more than one byte. |
| Flags.MultiByteKeyGetsTwoDashes | kubeapply.go:169-173 | "é" is one character but two bytes, so it becomes "--é". |
| Flags.AddFlagIdempotent | kubeapply.go:164-174 | Normalising an already normalised flag changes nothing. |
| Flags.Timeout | kubeapply.go:50-58 | No timeout exactly when the "timeout" key is absent; otherwise its text is what gets parsed. |
| Commands.ScanFlags | kubeapply.go:122-138 | The flag loop emits one argument per key, in key order: the normalised name alone for an empty value, else name=value. |
| Commands.ScanFindsFilenameFlag | kubeapply.go:122-127 | The loop's filename marker is set exactly when some key normalises to "-af" or "--filename". |
| Commands.ScanFindsOutputFlag | kubeapply.go:122-130 | The loop's output marker is set exactly when some key normalises to "-o" or "--output". |
| Commands.Build | kubeapply.go:102-149 | An empty executable becomes "kubectl" and a given one is kept. The first argument is the subcommand, "apply" when none is given, then one argument per flag in Keys order. |
| Commands.DefaultsAppended | kubeapply.go:140-162 | After the flag arguments come "--filename=./ --recursive" iff no flag names the filename flag and some upload ends in .json/.yaml/.yml, then "--output=json" iff no flag names the output flag, and nothing else. |
| Commands.FilenameFlagNames | kubeapply.go:123-127 | Exactly the keys "-af", "filename" and "--filename" suppress the filename default; "f" and "-f" do not. |
| Commands.OutputFlagNames | kubeapply.go:123-130 | Exactly the keys "o", "-o", "output" and "--output" suppress "--output=json". |
| CommandExamples.KeysOfEmptyFlags | kubeapply_test.go:21-27 | An empty flag map has no keys. |
| CommandExamples.KeysUnsorted | kubeapply_test.go:42-57 | The test's seven keys list as "--z", "-x", "a", "b", "c", "d", "timeout". |
| CommandExamples.CommandBasic | kubeapply_test.go:103-108 | No flags and no uploads give kubectl apply --output=json. |
| CommandExamples.CommandShortFilenameFlag | kubeapply_test.go:109-118 | Flag f=file.yaml gives apply -f=file.yaml --output=json. |
| CommandExamples.CommandForced | kubeapply_test.go:119-128 | Flag --force with no value gives apply --force --output=json. |
| CommandExamples.CommandForcedWithTimeout | kubeapply_test.go:129-140 | Three flags come out in byte order, and an empty value stays bare. |
| CommandExamples.CommandKeyWithEquals | kubeapply_test.go:141-152 | A key containing "=" is one flag and is not split. |
| CommandExamples.ShortFilenameFlagKeepsDefault | kubeapply.go:122-162 | With a YAML upload, an f flag still gets the default "--filename=./ --recursive" appended. |
| Uploads.FirstRejected | kubeapply.go:341-347 | The loop finds nothing exactly when no name is rejected; otherwise it returns the first rejected name. |
| Uploads.CheckUploads | kubeapply.go:340-350 | The uploads are refused iff some name is reserved, contains "..", or is absolute; the message quotes an unsafe name. |
| Uploads.CheckUploadsOrderIndependent | kubeapply.go:340-350 | Whether the uploads are refused does not depend on map iteration order. |
| Uploads.SingleUnsafeNamed | kubeapply.go:340-350 | With one unsafe upload, the error names exactly that upload. |
| Uploads.DotDotUnsafe | kubeapply.go:344 | ".." anywhere in a name makes it unsafe. |
| Uploads.UnsafeExamples | kubeapply.go:334-347 | The reserved names, parent references and absolute paths are refused. |
| Uploads.SafeExamples | kubeapply.go:334-347 | Plain relative names, including ones in sub-directories, are accepted. |
| Uploads.DotSlashPassesCheck | kubeapply.go:340-349 | "./description" and "./request" are not refused by checkUploads as written, but the corrected check refuses them. |
| Uploads.DotPassesCheck | kubeapply.go:340-349 | "." is not refused by checkUploads as written; the corrected check refuses it. |
| Uploads.NestedNamePasses | kubeapply.go:340-349 | "description/x.yaml" is accepted by both checks. |
| Uploads.CheckPlainUploads | kubeapply.go:340-350 | The corrected check refuses the uploads iff some name is unsafe or has an empty, "." or ".." element; the message quotes a refused name. |
| Paths.SplitJoin | kubeapply.go:362 | Splitting a path at "/" and joining the elements back gives the path. |
| Paths.JoinSplit | kubeapply.go:362 | Joining slash-free elements with "/" and splitting gives the elements back. |
| Paths.Clean | kubeapply.go:362 | A cleaned path is never empty, and the empty path cleans to ".". |
| Paths.CleanIdempotent | kubeapply.go:362 | Cleaning a cleaned path changes nothing. |
| Paths.CleanTrailingSlash | kubeapply.go:362 | A trailing slash does not change the cleaned path. |
| Paths.PlainClean | kubeapply.go:362 | A relative path whose elements are all plain is already clean. |
| Paths.PathJoin | kubeapply.go:362 | filepath.Join is empty exactly when both parts are empty. |
| Paths.JoinPlain | kubeapply.go:403 | Joining a plain name gives the cleaned directory, a slash, and the name verbatim. |
| Paths.PathJoinInjective | kubeapply.go:362 | Distinct plain names join to distinct paths under one directory. |
| Paths.JoinDot | kubeapply.go:362 | Joining "." to a directory gives the cleaned directory itself. |
| Paths.DotElementDropped | kubeapply.go:362 | Under any directory, "./name" joins to the same path as "name". |
| Paths.Dir | kubeapply.go:364 | A path without a slash has "." as its directory. |
| Paths.DirOfJoin | kubeapply.go:362-364 | The parent of a top-level upload's path is the cleaned request directory. |
| Identity.AuditDir | kubeapply.go:434-436 | The audit directory lies under "configurations/". |
| Identity.AuditDirClean | kubeapply.go:434-436 | The audit directory is already clean, so the directories made for it and for its uploads are the same path. |
| Identity.AuditDirInjective | kubeapply.go:430-437 | The directory determines the date, Unix seconds and id it was built from, so distinct requests get distinct directories. |
| Responses.ExitStatus | kubeapply.go:412-424 | Exit code 0 iff there was no error; an exit error gives its own status; -1 for any other error; always within -1..255. |
| Responses.EmbedError | kubeapply.go:192-206 | Stderr is untouched for nil or an exit error. Any other error's message ends the result: alone if stderr was empty, else after stderr and the separator line. |
| Applies.Init | kubeapply.go:426-440 | The first init assigns the fresh id, the time and the cleaned directory filepath.Join derives from both, and a later one keeps them. Every init sets name/args to the built command. |
| Applies.InitIdempotent | kubeapply.go:426-440 | Calling init again, with any id and time, changes nothing. |
| Applies.StatefulAfterInit | kubeapply.go:267-284 | After init the argument list is never empty, so a request is stateful iff saving is on, there are uploads, and no argument is -h or --help. |
| Applies.HelpFlagStateless | kubeapply.go:276-281 | A valueless flag normalising to -h or --help makes the request stateless. |
| Applies.NothingToSave | kubeapply.go:267-274 | With saving disabled or no uploads, the request is stateless. |
| Audit.MkdirAllFails | kubeapply.go:352-355 | os.MkdirAll succeeds iff no OS error is given for the directory and no file lies at or above it. Otherwise it reports the given error, or "mkdir <f>: not a directory" for such a file f. |
| Audit.OpenErrorFails | kubeapply.go:405 | ioutil.WriteFile succeeds iff no file lies above the path, it is not a directory, and no OS error is given. Without a given error, a failure says "not a directory" or "is a directory". |
| Audit.SaveFile | kubeapply.go:402-410 | A successful saveFile stores the content at the joined path and changes nothing else. A failed one changes nothing and reports the path and WriteFile's error. |
| Audit.SaveFileSucceedsIff | kubeapply.go:402-410 | saveFile succeeds exactly where a file may be written. |
| Audit.CopyFaultNone | kubeapply.go:361-370 | One upload is copied iff its parent directory can be created and its path may be written. |
| Audit.CopyFilesSucceedsIff | kubeapply.go:360-374 | Copying succeeds, in whatever order, iff every upload's parent can be created, every upload path may be written next to the files present, and none lies above another. |
| Audit.CopyFilesFrame | kubeapply.go:360-374 | Copying writes nowhere but the uploads' own paths. |
| Audit.CopyFilesWrites | kubeapply.go:360-374 | After a successful copy, every upload sits at its path with its content, provided no two names join to the same path. |
| Audit.PlainApart | kubeapply.go:362 | Plain names never join to the same path, so the proviso above holds for them. |
| Audit.CopyFilesStops | kubeapply.go:360-372 | Copying stops at the first upload that cannot be copied: it reports that upload's error and leaves what copying the uploads before it left. |
| Audit.ListFiles | kubeapply.go:84-93 | The upload names appear once each, in byte order. |
| Audit.DescriptionListsUploads | kubeapply.go:376-400 | The description record names every upload. |
| Audit.UploadReplacesDescription | kubeapply.go:314-349 | With checkUploads as written, an upload named "./description" passes, configure succeeds, and the description record holds the upload's content. The corrected configure refuses it. |
| Audit.AliasReplacesDescription | kubeapply.go:360-368 | Any upload that passes checkUploads but joins to the description's path takes the description's place. |
| Audit.AliasLosesUpload | kubeapply.go:327-331 | Any upload that passes checkUploads but joins to the request record's path is overwritten by the request dump, so the trail misses its content. |
| Audit.DotUploadHitsDirectory | kubeapply.go:323-370 | With checkUploads as written, an upload named "." passes. Configure writes the description, then fails with "error writing . (<dir>): open <dir>: is a directory". The corrected check refuses the name. |
| Audit.UploadUnderDescription | kubeapply.go:323-366 | Under either check, an upload "description/x.yaml" passes. Once the description is written, creating its parent fails with "mkdir <description path>: not a directory". |
| Audit.RequestReplacesUpload | kubeapply.go:327-349 | With checkUploads as written, an upload named "./request" passes, but the request dump written after it replaces its content. The corrected configure refuses it. |
| Audit.RecordPathsDiffer | kubeapply.go:402-404 | The description, request and response records never share a path. |
| Audit.ConfigureRefusesUnsafe | kubeapply.go:314-317 | Under either check, a rejected upload name stops configure before anything is written, with an error naming a rejected upload. |
| Audit.ConfigureSucceedsIff | kubeapply.go:314-332 | Under either check, configure succeeds iff no upload name is rejected, the directory can be created (no OS error, no file at or above it), every upload's parent can be created, and the record and upload paths may all be written, none above another. |
| Audit.NestedPathsFail | kubeapply.go:314-332 | Under either check, two written paths one above the other, such as uploads "a" and "a/b.yaml", make configure fail. |
| Audit.WriteTrailSucceedsIff | kubeapply.go:319-331 | Once the names are accepted, the writes succeed iff all of them can. |
| Audit.TrailClearStaged | kubeapply.go:319-331 | That condition, read in the order of the writes: the directory, the description, the uploads next to it, then the request next to them all. |
| Audit.WriteTrailClear | kubeapply.go:319-331 | When every write can succeed, the result is the description, then the uploads, then the request dump written over the store. |
| Audit.UploadsCopied | kubeapply.go:360-374 | Copying all uploads succeeds iff their paths are clear, and then adds exactly those paths. |
| Audit.ConfigureKeys | kubeapply.go:314-332 | Under either check, a successful configure adds exactly the records' and the uploads' paths to the files. |
| Audit.ConfigureFrame | kubeapply.go:314-332 | Under either check, configure, successful or not, writes nowhere but the description, request and upload paths in the request's directory. |
| Audit.ConfigureRecords | kubeapply.go:314-332 | Under either check, after a successful configure where every upload has a path of its own, the description, the request dump and every upload are stored with their contents. |
| Audit.CorrectedConfigureRecords | kubeapply.go:314-349 | With the corrected check, every successful configure stores the description, the request dump and every upload. |
| Audit.RecordsApart | kubeapply.go:334-349 | Names the corrected check accepts are joined to distinct paths, none of them a record's. |
| Audit.ConfigureMkdirFails | kubeapply.go:319-321 | Under either check, when the directory cannot be created, configure reports the mkdir error and writes nothing. |
| Audit.ConfigureDescriptionFails | kubeapply.go:323-325 | Under either check, when the description cannot be written, configure reports its path and the OS error and writes nothing. |
| Audit.ConfigureCopyFails | kubeapply.go:327-329 | Under either check, when the i-th upload fails, configure reports its error and changes nothing but the description and the uploads before it. Without aliases those are written and the request record is untouched. |
| Audit.ConfigureRequestFails | kubeapply.go:331 | Under either check, when the request dump cannot be written, configure reports its path and changes nothing but the description and the uploads. Without aliases those are all written and the request record is untouched. |
| Runs.MaybeConfigure | kubeapply.go:306-312 | A stateless request configures nothing. A stateful one fails exactly when a name is rejected or a write cannot succeed, and writes only audit paths. |
| Runs.MaybeSaveResponse | kubeapply.go:286-304 | Only a stateful request records the response. Its write succeeds exactly when the response path may be written, and then holds the encoded response plus a newline. Nothing else is touched. |
| Runs.RunConfigureFailure | kubeapply.go:210-217 | Under either check, no process is started exactly when a stateful request has a rejected name or a write that cannot succeed. The response then carries only exit code -1 and the error text as stderr. |
| Runs.RunReportsOutcome | kubeapply.go:219-238 | After the process ran, the response reports its exit status, stdout, stderr with any non-exit error embedded, the id, the command line and the directory, even for stateless runs. |
| Runs.RunStatelessLeavesStore | kubeapply.go:255-257 | A stateless request leaves the file system untouched, and its process has no working directory. |
| Runs.RunFrame | kubeapply.go:209-245 | Under either check, a run writes only the request's records and uploads. |
| Runs.RunAuditTrail | kubeapply.go:209-245 | Under either check, a stateful run whose configure can succeed and whose uploads each have a path of their own leaves the description, the request, every upload and, when the response path may be written next to them, the response record. |
| Runs.CorrectedRunAuditTrail | kubeapply.go:209-245 | With the corrected check, every stateful run whose configure can succeed leaves that full trail. |
| Runs.RunAfterConfigure | kubeapply.go:219-245 | After a successful configure the process runs in the request's directory, and the run then writes only the response record, holding the response when its path may be written. |
| Runs.RecordedKept | kubeapply.go:240-242 | Writing the response record keeps everything configure recorded. |
| Runs.RunKeepsIdentity | kubeapply.go:430-439 | Running an already initialised request again keeps its id, time, directory and command line. |
| RunExamples.RunBasic | kubeapply_test.go:179-188 | echo runs as `echo xyz123 --output=json` without a working directory, and its output is reported with exit code 0. |
| RunExamples.RunNotFound | kubeapply_test.go:203-216 | A process that cannot start gives exit code -1, with its error text as stderr. |
| RunExamples.RunExitStatus | kubeapply_test.go:217-231 | An exit with status 2 reports code 2 and keeps the process's own stderr. |
| FlagValues.UnmarshalFlag | server/decoding/flagvalue.go:18-28 | A failed decode leaves the value as it was. |
| FlagValues.MarshalFlag | server/decoding/flagvalue.go:13-15 | A flag value is encoded as a JSON string. |
| FlagValues.UnmarshalFlagSpec | server/decoding/flagvalue.go:18-49 | A string, number or boolean becomes its text, and null the empty string. Anything else keeps the old value and fails with a type error naming *decoding.FlagValue, or with the scanner's error. |
| FlagValues.NullEmptiesFlag | server/decoding/flagvalue.go:18-25 | Null decodes into a fresh string, so it empties an existing value without error. |
| FlagValues.MarshalRoundTrip | server/decoding/flagvalue.go:13-25 | Unmarshalling MarshalJSON's output gives the value back. |
| FlagValues.StringWinsOverNumber | server/decoding/flagvalue.go:19-25 | A string that spells a number stays the string's contents, because the first successful attempt wins. |
| FlagValues.FlagValueTestCases | server/decoding/flagvalue_test.go:15-68 | The tests' inputs decode to the tests' values and error texts. |
| FlagValues.FailureKeepsValue | server/decoding/flagvalue.go:43-48 | An object, an array or empty input leaves an existing value in place. |
| FileValues.UnmarshalFile | server/decoding/filevalue.go:12-27 | Decoding succeeds exactly on an object, null or a string. |
| FileValues.UnmarshalFileSpec | server/decoding/filevalue.go:12-37 | An object keeps its raw text, null the text "null", and a string its contents. Anything else empties the value and fails with a type error naming *decoding.FileValue, or with the scanner's error. |
| FileValues.NullStoredAsText | server/decoding/filevalue.go:29-37 | Null passes the object decode, so the file's content becomes "null". |
| FileValues.OldValueIgnored | server/decoding/filevalue.go:17-19 | The previous value never shows through. |
| FileValues.FileValueTestCases | server/decoding/filevalue_test.go:15-49 | The tests' inputs decode to the tests' values and error texts. |
| FileValues.FailureClearsValue | server/decoding/filevalue.go:17-24 | A number or an array clears an existing value and reports the renamed type error. |

## Library behaviour assumed

These functions stand for the Go library calls the decoders and the audit
trail make. Their contracts describe the library, not kubeapply:

- `Json.IntoString`, `Json.IntoBool`, `Json.IntoNumber` and `Json.IntoObject`
  are `json.Unmarshal` into a fresh string, bool, `json.Number` and
  `map[string]json.RawMessage`. Null leaves each at its zero value; for the
  map, the decoders keep the raw input.
- `Json.Mismatch` is the error for a value of the wrong kind. `Json.Retarget`
  renames an `*json.UnmarshalTypeError` to the decoder's own type
  (server/decoding/flagvalue.go:43-46, server/decoding/filevalue.go:21-24).
- `Audit.MkdirAll` is `os.MkdirAll` and `Audit.OpenError` the error of
  `ioutil.WriteFile`: a file at or above the directory, a file above the
  path or a directory at it make them fail with Go's *PathError texts, and
  the `Host` gives any other OS error (kubeapply.go:353, 364, 368, 405).

## Findings

| source | as written | input that shows it | evidently intended | confidence | as-written member | corrected member |
|---|---|---|---|---|---|---|
| kubeapply.go:340-349 | checkUploads tests the raw name, but copyConfigurationFiles writes to `filepath.Join(a.dir, f)`, which cleans it (kubeapply.go:362). | An upload named "./description": it passes the check and is written over the description record. "./request" and "./response" also pass, but the request dump and the response are written after the uploads, so those uploads' contents are silently lost. | An upload never replaces a record, which is what the reserved names are there for. | medium; not executed | Audit.UploadReplacesDescription | Audit.RecordsApart |

## Left out

- Running the subprocess (`cmdRun`, `exec.CommandContext`, context cancellation) is not modelled. The process is a function from the invocation to its stdout, stderr and error.
- The error text of an `*exec.ExitError` ("exit status 2") is not modelled: the error is kept as a variant with its status.
- Real file-system effects (`os.MkdirAll`, `ioutil.WriteFile`, file modes) are abstracted. A write either stores the whole content or fails without changing the store. Partially written files and file modes are not modelled.
- Failures other than a path through a file or a write onto a directory (permissions, a full disk, a read-only file system) are not derived: the `Host` gives them as OS error texts per path.
- Creating a directory adds nothing to the store: a directory is implied by the files under it or listed in the `Host`. A parent directory that os.MkdirAll created for an upload whose write then failed is therefore not kept; configure stops there, so no later step of the same request could see it.
- The store is not required to be a consistent file system: a file stored under another file is not excluded. `Audit.FileAbove` then names the shortest such file, where Go would name the one its path walk meets.
- The OS error for creating an upload's parent directory is given per upload path rather than per `filepath.Dir` of that path.
- A failed response write is reported in `MaybeSaveResponse`'s outcome, but `Run` drops it: kubeapply only logs it, and logging is not modelled.
- `filepath.Join`, `filepath.Clean`, `filepath.Dir` and `filepath.IsAbs` are modelled with Unix rules only: "/" is the one separator and there are no volume names.
- Audit.ConfigureRecords: under kubeapply's own check the stored contents are promised only when `Audit.NoAlias` holds, because an upload such as "./description" or "./request" shares a record's path (see Findings). The same proviso bounds the content parts of `Audit.ConfigureCopyFails`, `Audit.ConfigureRequestFails` and `Runs.RunAuditTrail`.
- Byte contents (`Strings.Bytes`: uploads, records, the request dump) are Go byte slices but are modelled as strings of characters, so byte sequences that are not valid UTF-8 are not represented.
- `uuid.NewV4`, `time.Now` and time formatting are not modelled: the id, the date text, the Unix seconds text and the RubyDate text are inputs.
- Flags.Timeout: `time.ParseDuration` is a foreign call, so the model only says whether the "timeout" text is handed to it.
- The `sync.RWMutex` locking in `Command` and `init` is not modelled: it only serialises concurrent calls.
- `json.MarshalIndent` of the response and `Output.MarshalJSON` are not modelled: the response encoding is a function given to `Run`, so the encoding failure branch of `saveResponse` is not modelled either.
- The tests reassign the package variable holding the default subcommand; the model keeps the default fixed at "apply" and passes the subcommand in the request instead.
- `getExitStatus` on a system whose exit error does not carry a Unix wait status (which gives -1) is not modelled.
- The JSON scanner is not modelled. Decoders take an already classified value, so input with leading or trailing whitespace around an object is not distinguished from the object's raw text.
- When a FlagValue or FileValue is a field of a larger JSON document, encoding/json may handle a null field itself without calling UnmarshalJSON. The decoders are modelled as called directly on their input.
- The text of json.Number's invalid-number error is not modelled with Go's quoting rules. FlagValue discards that error, so it never surfaces.
- An UnmarshalTypeError raised while decoding a struct field carries the field's name in its text. The decoders are modelled as called directly, as the tests call them.
- The HTTP layer (handlers, status codes, `filterIP`, request copying), server start-up and signal handling are not part of this model.
