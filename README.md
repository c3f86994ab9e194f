# DICOM inspector core, modelled in Dafny

A command-line tool looks inside DICOM files. For each file it visits, it
prints the file's path, reads the dataset, and then does one of two things:

- **Search mode.** It prints every element whose registry tag name matches a
  case-insensitive regular expression.
- **Inspection mode.** It goes through the registry's tag names in sorted
  order and prints one line for each name whose element is present in the
  dataset and is not PixelData. The PixelData element prints nothing unless
  an extraction directory is given. With one, the frames are written to a
  single file, and a line reports the MIME type, the file name and, when the
  bytes decode as an image, the image size.

The tool also holds three tables of compressed transfer syntaxes: JPEG,
JPEG 2000 and MPEG. A strict lookup `find` over them panics instead of
returning false.

The project models:

- the tables and `find` with its three wrappers (`transfer_syntax.dfy`);
- the search branch (`search.dfy`);
- the sorted inspection loop (`report.dfy`);
- pixel-data extraction (`extraction.dfy`);
- `processFile`, and `run` with its per-file callback (`process.dfy`).

Supporting modules:

- `wrappers.dfy` has the option, result and panic outcome types.
- `text.dfy` has Go's string order, a model of `sort.Strings`, `%-25s` padding and `%d` rendering.
- `seqs.dfy` has filtering and concatenation.
- `dicom.dfy` has tags, elements and datasets.
- `collaborators.dfy` describes the environment.

Every library call the model leaves abstract is a field of the `Collaborators.Env` value:

- the dataset reader;
- the tag registry: the list of tags, tag-to-name and name-to-tag;
- the regular-expression engine: its compile error and its match predicate;
- MIME detection;
- image decoding;
- `filepath.Base` and `filepath.Join`;
- `os.WriteFile`.

The directory walk of `common.WalkFiles` is not an `Env` field. It is the
`entries` and `walkError` parameters of `Process.Run`. Some library behaviour
is modelled in Dafny instead:

- `common.IndexOf` is `TransferSyntax.IndexOf`.
- `sort.Strings` is `Text.SortStrings`.
- The `bytes.Buffer` writes are `Extraction.ConcatFrames`.
- The `fmt` verbs are `Text.PadRight`, `Text.Decimal` and the line functions.
- The element scan of `DataSet.FindElementByName` is `Dicom.FindElementByTag`.

Printing and file writes are appended to an output log of `Event`s. A
`Trace` pairs that log with how the call ended: nil, an error, or a panic.

Each loop in the source is a `method` with a `while` or `for` loop:

- The search, inspection and walk loops (`SearchElements`, `Inspect`, `Run`) are proved equal to the recursive specification functions `SearchTrace`, `InspectTrace` and `RunTrace`.
- The frame loop `ConcatFrames` is proved equal to the recursive `Seqs.Concat`.
- The tag-name loop `CollectTagNames` is proved equal to `TagNames`, one name per registry entry.

The methods around these loops are proved equal to non-recursive specification functions:

- `ExtractPixelData` to `ExtractTrace`;
- `ProcessFile` to `ProcessFileTrace`;
- `Visit` to `VisitTrace`.

Lemmas then state what main.go promises about those functions.

In these places one might expect otherwise. `main.go` behaves as follows, and so does the model:

- The allow-list `standardTags` (main.go:127-131) is built but never read. So every registry name whose element is present and is not PixelData is reported. The loop runs over registry names (main.go:133-141), so an element whose tag has no registry name prints nothing, and each name prints at most one line.
- All frames go into one buffer and one file, not one file per frame.
- A failed file write makes `processFile` return the error. It does not continue with the next frame.
- A regular expression that does not compile is an error for that file only, and the `run` callback swallows it. The error is reached only when some element's tag resolves in the registry, because the pattern is compiled inside the loop.
- `find` panics on a missing entry. There is no tolerant classification. `processFile` never calls the three wrappers.

## Model

| member | source | states |
|---|---|---|
| TransferSyntax.EntryText | main.go:28-64 | a table entry is the root `1.2.840.10008.1.2.4.`, the decimal digits of the last arc, one space, then the name, and nothing else |
| TransferSyntax.IndexOf | main.go:75 | -1 exactly when the string is absent; otherwise the first position holding it |
| TransferSyntax.Find | main.go:74-82 | returns exactly when the string is in the list, and then only `true`; otherwise panics with "cannot find" naming the string and the list |
| TransferSyntax.TablesHaveNoDuplicates | main.go:28-64 | no table lists an entry twice |
| TransferSyntax.TablesAreDisjoint | main.go:28-64 | no entry appears in two tables |
| TransferSyntax.EntriesStartWithRoot | main.go:28-64 | every entry of every table begins with `1.2.840.10008.1.2.4.` |
| TransferSyntax.EntriesContainSpace | main.go:28-64 | every entry holds a space between its UID and its name |
| TransferSyntax.ArcsAreDistinct | main.go:28-64 | across the three tables, read in order, the UIDs' last arcs strictly ascend, so no UID occurs twice |
| TransferSyntax.EntryTextInjective | main.go:28-64 | two entries with the same text have the same UID and the same name |
| TransferSyntax.FirstJpegEntry | main.go:29 | the first JPEG entry is exactly `1.2.840.10008.1.2.4.50 JPEG Baseline (Process 1)` |
| TransferSyntax.IsJpegTransferSyntax | main.go:84-87 | returns exactly when the string is a JPEG entry, and then `true`; otherwise panics with "cannot find" naming the string and `JPEG_LIST` |
| TransferSyntax.IsJpeg2000TransferSyntax | main.go:89-92 | returns exactly when the string is a JPEG 2000 entry, and then `true`; otherwise panics with "cannot find" naming the string and `JPEG_2000_LIST` |
| TransferSyntax.IsMpegTransferSyntax | main.go:94-96 | returns exactly when the string is an MPEG entry, and then `true`; otherwise panics with "cannot find" naming the string and `MPEG_LIST` |
| TransferSyntax.BareUidPanics | main.go:84-96 | matching is whole-string: each of the three wrappers panics on any string without a space, such as a bare UID |
| TransferSyntax.JpegBaselineBareUidPanics | main.go:84-87 | `isJpegTransferSyntax("1.2.840.10008.1.2.4.50")` panics |
| TransferSyntax.JpegBaselineEntryFound | main.go:29 | the full JPEG Baseline entry is found and yields `true` |
| TransferSyntax.ClassificationIsExclusive | main.go:84-96 | an entry of one table is found by its own wrapper and makes the other two panic |
| Text.LessTotal | main.go:138 | Go's byte-wise string order is total |
| Text.LessTransitive | main.go:138 | Go's string order is transitive |
| Text.SortStrings | main.go:138 | the result is sorted in ascending order and is a permutation of the input |
| Text.SortedPermutationIsUnique | main.go:138 | any two sorted permutations of the same names are equal, so the sort's output is fully determined |
| Text.PadRight | main.go:148 | `%-25s`: the name, then spaces up to width 25; longer names are kept whole |
| Text.DecimalRoundTrip | main.go:180 | the `%d` rendering of a number reads back as that number |
| Dicom.FindElementByTag | main.go:141 | the first element carrying the tag, or none exactly when no element carries it |
| Dicom.FindElementByName | main.go:141 | an element is found exactly when the registry resolves the name to a tag and some element of the dataset carries that tag; the element found is one of the dataset's and carries that tag |
| Collaborators.MatchString | main.go:114 | the match fails, with the compile error, exactly when the pattern does not compile; otherwise it answers whether the pattern matches the name |
| Search.SearchElements | main.go:106-125 | the scan's output and status are those of `SearchTrace` over the elements in dataset order |
| Search.SearchPrintsHitsInOrder | main.go:107-122 | with a valid pattern, the scan prints `name: value` for exactly the elements whose tag resolves and whose name matches, in dataset order, and ends with nil |
| Search.SearchBadPattern | main.go:114-117 | with an invalid pattern, nothing is printed, and the error is returned exactly when some element's tag resolves |
| Search.SearchSkipsUnknownTag | main.go:108-112 | an element whose tag does not resolve changes nothing, wherever it stands |
| Search.SearchOnlyPrints | main.go:106-125 | search mode never writes a file and never panics |
| Extraction.ConcatFrames | main.go:159-165 | the buffer is the in-order concatenation of the frames, and its length is the sum of the frame lengths |
| Extraction.BufferHoldsFramesInOrder | main.go:159-165 | frame `i` occupies the buffer right after the frames before it |
| Extraction.ExtractPixelData | main.go:157-183 | the extraction's output and status are those of `ExtractTrace` |
| Extraction.ExtractionOutcome | main.go:157-183 | an empty value list or a non-pixel value panics; one file holding the buffer is written, named `Join(extract, Base(path) + "." + ext)`; a failed write returns its error and prints nothing; otherwise the report line follows the write, the size is printed only when decoding succeeds, and the output ends with a newline |
| Report.ReportLine | main.go:147-151 | the name padded to 25 columns, `": "`, the value and a newline; with no banner, the value and a newline only |
| Report.CollectTagNames | main.go:133-136 | one name per registry tag, in registry order |
| Report.Inspect | main.go:140-189 | the loop's output and status are those of `InspectTrace` over the names in order, ending with a blank line when no step stops it early |
| Report.InspectWithoutExtraction | main.go:140-155 | without extraction, the loop never fails and prints one line per name that resolves other than to PixelData, in name order, then a blank line |
| Report.NameTraceWithoutExtraction | main.go:141-155 | without extraction, or for a name that does not resolve to PixelData, one name yields its report line when it is reported and nothing otherwise |
| Report.InspectUpToPixelData | main.go:140-151 | with or without extraction, the names before the first one that resolves to PixelData print their report lines in order, and the loop then goes on with the rest |
| Report.InspectStopsOnWriteFailure | main.go:140-174 | with extraction, a failed pixel-data write stops the loop: the lines already printed stay, nothing follows them (no closing blank line), and the write's error is returned |
| Report.InspectExtractsPixelData | main.go:140-189 | with extraction and a successful write, the output is the lines before the PixelData name, then the extraction's output, then the lines after it, then the blank line |
| Report.PixelNameStep | main.go:152-183 | with extraction, the PixelData name runs the extraction, and a successful write ends it with nil |
| Report.InspectSkipsAbsentName | main.go:141-144 | a name that does not resolve yields no line and does not stop the loop |
| Report.ReportedNamePrintsOneLine | main.go:146-151 | a present non-PixelData element yields exactly its one line, whatever the other settings; no allow-list is consulted |
| Report.NoExtractionNoWrite | main.go:152-155 | without extraction, no file is written |
| Report.FilterKeepsSorted | main.go:138-151 | skipping names keeps the remaining names in sorted order |
| Process.ProcessFile | main.go:98-190 | the output and status of one file are those of `ProcessFileTrace`, whose outcomes the lemmas below state for each mode: read failure, search, inspection without and with extraction |
| Process.ProcessFileStopsOnWriteFailure | main.go:98-174 | with extraction, the path and the sorted report lines before the PixelData name are printed, and a failed write then ends `processFile` with that error and nothing more printed |
| Process.ProcessFileExtractsPixelData | main.go:98-189 | with extraction and a successful write, the path, then the sorted report lines before the PixelData name, then the extraction's output, then the lines after it, then the blank line, ending with nil |
| Process.ProcessFileReadFailure | main.go:99-104 | a dataset that cannot be read ends `processFile` with the reader's error; only the path has been printed |
| Process.DatasetRequestDropsPixelDataIffNoExtract | main.go:101 | the dataset is requested with DropPixelData set exactly when the extraction directory is empty |
| Process.SearchReadsOnlyItsCollaborators | main.go:106-125 | the search depends only on the registry's tag-to-name lookup and the regular-expression engine |
| Process.NameTraceReadsOnlyItsCollaborators | main.go:140-184 | one inspection step depends only on the name lookup, MIME detection, decoding, path building and file writing |
| Process.InspectReadsOnlyItsCollaborators | main.go:140-189 | the inspection depends only on the name lookup, MIME detection, decoding, path building and file writing |
| Process.SearchModeSkipsInspection | main.go:106-125 | search mode returns before inspection: the registry's name list, the name lookup, MIME detection, decoding, paths, writes, the no-banner flag and the extraction directory (beyond whether it is empty, which sets DropPixelData) change nothing; only text is printed; there is no panic |
| Process.ReportIsSortedByTagName | main.go:133-151 | without search or extraction, a file prints its path, then one line per registry name whose element is present and is not PixelData, in ascending name order, then a blank line; the names printed are exactly those |
| Process.Visit | main.go:193-201 | a directory yields nothing; a file yields `processFile`'s output; every error is swallowed, and only a panic passes through |
| Process.Run | main.go:192-207 | the walk's output and status are those of `RunTrace` over the entries in walk order |
| Process.RunSwallowsFileErrors | main.go:193-201 | when no file panics, the output is the per-file outputs of the non-directory entries, concatenated in order, and the status is the walk's own |
| Process.RunStatus | main.go:192-207 | `run` ends with nil, with the walk's error, or with a panic; never with a file's error |

## Left out

- Dicom.FindElementByTag: the element scan inside go-dicom's `DataSet.FindElementByName` is assumed to return the first top-level element that carries the tag. That is an assumption about the library, not something main.go:141 states. No lemma relies on the first-match choice.
- Dataset decoding (`dicom.ReadDataSetFromFile`) is a collaborator that returns a dataset or an error text. The tag registry (`dicomtag.AllTags`, `FindTagInfo`, and the name-to-tag half of `FindElementByName`) is also a collaborator. The binary format is not modelled.
- `elem.String()` is modelled as an element's `text` field. Value rendering is not modelled.
- The regular-expression engine is a collaborator: a compile-error function and a match predicate. Pattern semantics and the meaning of `(?i)` are not modelled. The model only prefixes the pattern with `(?i)`.
- `common.DetectMimeType`, `image.Decode`, `filepath.Base` and `filepath.Join` are uninterpreted functions. `os.WriteFile` is a function from path and bytes to an optional error, and the file mode is not modelled.
- Console output and file writes are recorded as `Event`s in order. No real I/O is modelled.
- Logging through `common.Error` and `common.DebugError` is left out. It only logs, and it never changes control flow in the code modelled here.
- Flag parsing, `common.Init`, `common.Run`, `main` and the embedded `go.mod` resource are process plumbing and are left out.
- Directory traversal by `common.WalkFiles` is modelled as a given list of entries plus an optional walk error.
- Process.Run: a walk error is modelled as arriving after all entries the walk yields. Whether `common.WalkFiles` lets a callback panic through is not known here, so the model lets a panic end the walk.
- TransferSyntax.Find: the panic records the missing string and the list as a `CannotFind` value, not as the `%+v`-formatted message text.
- Text.SortStrings: `sort.Strings` sorts the slice in place. Here it is a function, proved sorted, proved to be a permutation, and proved to be the only such result.
- Extraction.ConcatFrames: `bytes.Buffer` writes never return an error, so the early return inside the frame loop is not modelled.
- Report.Inspect: the `standardTags` allow-list is not modelled, because nothing reads it.
- Process.ProcessFileExtractsPixelData: stated for a registry in which one sorted name resolves to PixelData. With several such names, `Report.InspectUpToPixelData` still describes the output up to the first one, one step at a time.
- Collaborators.Bounds: image bounds are unbounded integers. Go's `int` width does not matter for printing them.
