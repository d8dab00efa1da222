# filemap in Dafny

A model of `filemap` (a single Go program, `main.go`). The program walks a
directory tree and keeps the files whose extension was asked for. It gives
each kept file a `FileInstance` record holding its SHA-1 digest, groups
the records by digest into `FileInfo` buckets (sets of duplicate files),
and writes the result as JSON. The model covers:

- the command-line scan of `key=value` tokens (`Args`);
- the recursive walk `ListFiles`, with its hidden-entry skip, extension
  filter, discovered-types list and abort on the first error (`Walk`);
- a reference description of the walk as a depth-first sequence of events,
  and the theorem that the walk is exactly the outcome of that sequence
  (`WalkSpec`, `WalkProps`);
- grouping by digest and flattening the groups into the summary list
  (`Grouping`);
- the quote escaping of the `.txt` output (`Escape`);
- `main`'s data flow from arguments to summary list (`Program`).

The filesystem is an immutable tree (`Walk.Node`). It holds directories,
directories that cannot be listed, and files. A file carries its bytes,
an optional stat result (`None` when `os.Stat` fails) and a flag saying
whether it can be read for hashing. SHA-1, `path.Join` and `path.Clean`
are opaque functions passed in as `Library.Oracles`.

The Go code keeps the discovered types in the global `typesFound`. The
model threads that list through the walk instead, as the argument and
result field `found`.

Modules, in dependency order:

- `Wrappers`
- `GoStrings`: `strings.Split`, `HasPrefix`, `HasSuffix`, and `Join` as
  Split's inverse
- `Records`: the JSON record types of main.go:20-46
- `Library`
- `TypeList`: the `typesFound` accumulator
- `Walk`
- `WalkSpec`
- `WalkProps`
- `Grouping`
- `Escape`
- `Args`
- `Program`

## Model

| member | source | states |
|---|---|---|
| GoStrings.Split | main.go:70-71 | `strings.Split` with a one-character separator; always at least one chunk; fully specified by `GoStrings.SplitSpec` |
| GoStrings.HasPrefix | main.go:59 | `strings.HasPrefix`: the string starts with the prefix; its use in the walk is stated by `WalkProps.HiddenEntryIgnored` |
| GoStrings.HasSuffix | main.go:114 | `strings.HasSuffix`: the string ends with the suffix; its use in the scan (a token ending in `main` changes nothing) is stated by `Args.ScanArgEffect` |
| GoStrings.SplitSpec | main.go:70-71 | `strings.Split` yields one more chunk than there are separators; no chunk contains a separator; joining the chunks with the separator gives back the input |
| GoStrings.SplitWithSep | main.go:117 | a string containing the separator splits into at least two chunks, and the first chunk is the text before the first separator |
| Walk.Hidden | main.go:59 | an entry is hidden when its name starts with `.`; the walk's treatment of it is stated by `WalkProps.HiddenEntryIgnored` and `Walk.ListEntry` |
| Walk.FileType | main.go:70-71 | a file's type is the last `.`-separated chunk of its name; specified by `Walk.FileTypeSpec` |
| Walk.Wanted | main.go:73 | a type passes the filter when it is listed or `all` is listed; its effect is stated by `WalkProps.FileKeptIffWanted` |
| Walk.ChildPath | main.go:58 | an entry's path is `path.Clean(path.Join(dir, name))`, both opaque; its use is stated by `WalkProps.DirectoryAlwaysDescended` and `WalkProps.FileKeptIffWanted` |
| Walk.FileTypeSpec | main.go:70-71 | a file's type is the text after its last `.`: it contains no dot and is a suffix of the name; a dot-free name is its own type; otherwise a dot comes right before the type |
| Walk.Inspect | main.go:79-98 | a record is made exactly when both stat and hashing succeed; a failed stat is reported before hashing is tried; the record carries the type, cleaned path, size, modification time and SHA-1 of the file |
| Walk.ListFiles | main.go:48-54 | a root that cannot be listed fails with a read-dir error; on success every record is of a wanted type, and the types list is extended without duplicates, keeping its old contents as a prefix |
| Walk.ListEntries | main.go:55-102 | an empty listing returns no records and leaves the types list alone; on success the records are wanted and their types are all noted |
| Walk.ListEntry | main.go:56-99 | a hidden entry contributes nothing; on success, a contribution respects the filter and notes its types |
| TypeList.NoteType | main.go:76-78 | noting a type adds it at the end only if it is new; the list keeps its old prefix and stays free of duplicates |
| TypeList.NoteAll | main.go:76-78 | after noting several types, the list's members are the old members plus the new types; its prefix and distinctness are kept |
| TypeList.NoteAllAppend | main.go:76-78 | noting two runs of types equals noting them one after the other |
| TypeList.NoteAllFirstSeenOrder | main.go:76-78 | starting from an empty list, the types end up in the order of their first occurrence |
| WalkSpec.ListFilesIsOutcome | main.go:48-103 | the walk of a tree equals the outcome of its depth-first events: the first fault if there is one, otherwise the emitted records with their types noted in order |
| WalkSpec.ListEntryIsOutcome | main.go:56-100 | one entry's walk equals the outcome of its events |
| WalkSpec.ListEntriesIsOutcome | main.go:55-102 | a listing's walk equals the outcome of its concatenated events |
| WalkSpec.OutcomeAppend | main.go:55-101 | outcomes compose along concatenated event runs, and a fault in the first run hides the second |
| WalkProps.WalkFailsOnFirstFault | main.go:48-103 | the walk fails exactly when some visited item faults, and then with the first such fault in depth-first order |
| WalkProps.WalkRecordsAreEmitted | main.go:55-102 | a successful walk returns exactly the records of the visible, wanted files, in depth-first order |
| WalkProps.ListEntriesAppend | main.go:55-101 | walking two runs of entries is sequential composition: the second starts from the types the first left, and an error in the first stops the walk |
| WalkProps.HiddenEntryIgnored | main.go:59-61 | removing a hidden entry, whatever it is and wherever it sits, does not change the walk's result |
| WalkProps.FileKeptIffWanted | main.go:70-99 | a visible file that can be stat-ed and hashed yields one record exactly when its type is listed or `all` is listed, and that record describes the file |
| WalkProps.DirectoryAlwaysDescended | main.go:62-68 | a visible directory is walked at its joined, cleaned path whatever its name; the type filter does not apply to it |
| WalkProps.TypesFoundAreRecordTypes | main.go:76-78 | starting from an empty list, the discovered types are the distinct types of the returned records, in first-seen order |
| Grouping.WithHashMembers | main.go:140-156 | a bucket holds exactly the records with its digest |
| Grouping.BucketInInputOrder | main.go:147-153 | a bucket lists its records in the order they came from the walk |
| Grouping.AddToBucket | main.go:141-154 | one grouping step adds the record's digest to the keys and leaves every other bucket unchanged; the record's own bucket is created as `[f]` under its digest when new, and otherwise gets `f` appended at its end |
| Grouping.GroupInto | main.go:140-156 | the grouping loop from a given map over the records still to come; specified by `Grouping.GroupIntoGroups` |
| Grouping.GroupIntoGroups | main.go:140-156 | the grouping loop keeps the invariant "the map groups the records seen so far" |
| Grouping.GroupByHash | main.go:140-156 | the map's keys are exactly the digests that occur; each bucket carries its own digest and holds that digest's records in input order |
| Grouping.CollectFiles | main.go:181-183 | the flattened list holds every bucket exactly once, in an unspecified order |
| Grouping.GroupedCountPreserved | main.go:140-183 | the buckets of the flattened list hold as many instances in total as the walk returned records |
| Escape.EscapeQuotes | main.go:171 | escaping lengthens the text by its number of quotes, and every quote in the result comes right after a backslash |
| Escape.EscapeKeepsQuoteCount | main.go:171 | escaping neither adds nor removes quotes |
| Escape.EscapeRoundTrip | main.go:171 | unescaping `\"` gives back the original text |
| Args.TokenParts | main.go:117 | a token's key is the text before its first `=`, and its value runs from there to the next `=` or the end |
| Args.NoSepToken | main.go:117-119 | a token without `=` is its own single chunk, so the scan leaves the settings unchanged |
| Args.Initial | main.go:108-112 | the settings before the scan: empty directory, no types, empty save path; what survives of them is stated by `Args.DirDefaultsToEmpty` and `Args.SavePathDefaultsToEmpty` |
| Args.ScanArg | main.go:114-129 | one pass of the token loop; its effect for each kind of token is stated by `Args.ScanArgEffect` |
| Args.ScanFrom | main.go:113-130 | the token loop continued from given settings; composition is stated by `Args.ScanFromAppend` |
| Args.ScanArgs | main.go:113-130 | the scan of all tokens from the initial settings; the types it yields are exactly the requested types, the values of all `types=` tokens in token order |
| Args.ScanArgEffect | main.go:114-129 | a `types=` token appends its comma-separated values; `dir=` and `savepath=` tokens overwrite their setting; any other token changes nothing |
| Args.ScanFromAppend | main.go:113-130 | scanning two runs of tokens equals scanning one after the other |
| Args.ScanTypesAccumulate | main.go:120-121 | the requested types are the values of all `types=` tokens, concatenated in token order |
| Args.DirLastWins | main.go:122-123 | the last `dir=` token sets the directory |
| Args.DirDefaultsToEmpty | main.go:108-130 | without a `dir=` token the directory is the empty string |
| Args.SavePathDefaultsToEmpty | main.go:111-130 | without a `savepath=` token the save path is the empty string |
| Args.IgnoredTokenDropped | main.go:114-129 | a token the scan ignores can be removed from anywhere without changing the result |
| Records.NewFileList | main.go:40-46 | builds the summary list from the time, directory and types, with no files; it has no contract of its own (see its "## Left out" line), and `Program.Run` states the list's final values |
| Program.Run | main.go:105-183 | `main` fails when the walk of the scanned directory fails, with the walk's error; after a successful walk it fails when writing the save path or the save path plus `.txt` fails, with that path; it succeeds exactly when none of these happens; with no `savepath=` token and no file writable at `""` it always fails; on success the map groups the walk's records, the list holds each bucket once with as many instances as there are records, and the list's metadata are the time, the directory and the discovered types |
| Program.RecordInItsBucket | main.go:140-183 | each walked record is in the bucket for its digest, and in no bucket for another digest |

## Left out

- Filesystem access (`os.ReadDir`, `os.Stat`, reading for the checksum) is replaced by the immutable tree `Walk.Node`. Listing order is the order of a directory's `entries`. `os.ReadDir` returns entries sorted by name, and a real directory never holds two entries with the same name. `Walk.Dir` allows any order and repeated names. Every proved walk property holds for every order, so nothing depends on sorting. Symlinks and changes to the tree during the walk are not modelled.
- SHA-1 (`checksum.SHA1sum`), `path.Join` and `path.Clean` are opaque functions. No property of them is assumed.
- The MD5 code that is commented out at main.go:88-93 is not modelled.
- JSON encoding and indenting (main.go:160-165, 184-186) are not modelled. The bytes written by the three `os.WriteFile` calls (main.go:166, 172, 187) are not modelled either. Whether the first two succeed is the parameter `canWrite` (see `Program.Run`); the code ignores the third's error. The escaping of main.go:171 is modelled on arbitrary text, not on the JSON bytes.
- `time.Now` is a parameter (`now`). The name `filelist-<unix time>.json` is a parameter (`outName`), because integer formatting is not modelled.
- Go strings are byte sequences, while the model's `string` is a sequence of Unicode characters. This applies to entry names, tokens and the escaped JSON text. Nothing the code does depends on the difference. Every separator and affix it uses (`.`, `=`, `,`, `"`, `main`) is ASCII, and UTF-8 never places an ASCII byte inside a multi-byte character.
- `fmt` output (main.go:107, 128, 137, 157-159) is not modelled.
- The partial list that `ListFiles` returns together with an error is not modelled. A failure carries only the error, because `main` panics on an error and never looks at the list.
- `panic` is modelled as a `Failure` result of `Program.Run`.
- Program.Run: whether `os.WriteFile` succeeds at a path is a parameter (`canWrite`). The model does not know that it fails at `""`, which is the save path when no `savepath=` token is given. So it promises failure in that case only under `!canWrite("")`. `json.Marshal` of the map (main.go:160-163) is taken to succeed: it encodes only strings, integers and slices. The error of the last write (main.go:187) is ignored by the code, so the model ignores it too.
- Go's map iteration order is not modelled. `Grouping.CollectFiles` may pick the buckets in any order, and only the set of buckets is specified.
- Records.NewFileList: has no contract of its own. `main` overwrites every field it sets (main.go:176-180), and `Program.Run` states the final values.
- Args.DirDefaultsToEmpty: with no `dir=` token, `dir` stays `""` (main.go:108). It is not cleaned and does not become the working directory, so `os.ReadDir("")` fails. The model leaves `fs("")` to the caller: any tree given there is walked.
- A token that ends in `main` is skipped even when it is a setting, such as `dir=/src/main`. This is modelled as written.
