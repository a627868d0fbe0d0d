# Covid chest X-ray data set: record decoding, labelling and download lifecycle

This project models, in Dafny, the logic at the core of an app that downloads the
public COVID-19 chest X-ray data set, decodes it, and groups it for training an
image classifier.

- **Record decoding** (`data_set_downloader.dfy`, `desease_model.dfy`):
  - the 26 CSV headers of `metadata.csv` and the record they decode to;
  - its small enumerations (`YesOrNo`, `Sex`, `Desease`, `View`, `Modality`);
  - the classifier of the finding text;
  - where each image is stored locally (`folderName(for:)`, `imageURL`).
- **The `makeDeseaseModel(from:)` guard chain**:
  - thirteen keys gate a row;
  - nine text keys fall back to the empty string, and only `filename` is trimmed;
  - lenient fields become `None` when their cell does not parse;
  - `view` and `modality` must be exact raw values.
- **The sequential part of `execute`**:
  - the `compactMap` over the CSV rows;
  - the `filter` choosing which records get an image download;
  - the request and destination of each download;
  - the success payload, the full parsed list.
- **Label partitioning** (`data_model_creator.dfy`): the two loops that build
  `groupedDeseases` (one group per class) and `groupedImageURLs` (the groups' local
  image files, keyed by training label). They are methods with loops over maps.
- **Asynchronous operation lifecycle** (`async_operation.dfy`):
  - a class with a stored `state`, a cancellation flag and a count of body runs;
  - the derived `isReady`, `isExecuting` and `isFinished` flags;
  - `start()`, `cancel()` and the key path of each state.
- **HTTP methods** (`http_method.dfy`): the nine request methods with their tokens,
  and parsing a token back.

The Swift library functions the core relies on are modelled concretely in
`foundation_text.dfy`:
- `Int(String)` for 64-bit `Int`;
- `trimmingCharacters(in: .whitespaces)`;
- `String.capitalized` on ASCII words.

`collections.dfy` gives `filter` and `compactMap` once, generically, with the facts
the rest uses: which elements they keep, their order, and each element's count.

Modelling choices:
- A CSV row is a `map<string, string>` from header to cell.
- `Double(String)` is an uninterpreted parameter `parseDouble`, and a `Double` is
  its 64-bit pattern.
- The documents directory lookup is an `Option<FileURL>` input.
- A file URL is its sequence of path components.
- In `start()`, the body `main()` is an opaque step that may leave any state behind.
- The superclass's own readiness is an input to `isReady`.

## Model

| member | source | states |
|---|---|---|
| DeseaseModels.DeseaseModelHeader.RawValue | Core/DataSetDownloader.swift:28-55 | Each header's raw value is its column name in `metadata.csv`. |
| DeseaseModels.HeaderRawValueInjective | Core/DataSetDownloader.swift:28-55 | The 26 header strings are pairwise distinct, so each cell is found under exactly one header. |
| DeseaseModels.YesOrNo.FromRaw | Core/DataSetDownloader.swift:59-62 | `YesOrNo(rawValue:)` gives the case whose raw value is exactly the string, and nil when no case has it. |
| DeseaseModels.Sex.FromRaw | Core/DataSetDownloader.swift:64-67 | `Sex(rawValue:)` gives the case whose raw value is exactly the string, and nil when no case has it. |
| DeseaseModels.Desease.Classify | Core/DataSetDownloader.swift:74-83 | `covid19` if and only if the text is exactly "Pneumonia/Viral/COVID-19"; `noFinding` if and only if it is exactly "No Finding"; every other text, including "" and case variants, gives `other`. |
| DeseaseModels.DeseaseRawValueInjective | Core/DataSetDownloader.swift:69-72 | The three classes have distinct raw values, so a training label names one class. |
| DeseaseModels.View.FromRaw | Core/DataSetDownloader.swift:86-94 | `View(rawValue:)` accepts exactly the six raw values, case-sensitively, and gives the case with that raw value. |
| DeseaseModels.Modality.FromRaw | Core/DataSetDownloader.swift:96-99 | `Modality(rawValue:)` accepts exactly "CT" and "X-ray" and gives the case with that raw value. |
| DeseaseModels.FileURL.AppendingPathComponent | Core/DataSetDownloader.swift:162 | Appending a path component keeps the path and adds the component at its end. |
| DeseaseModels.DataSetFolder | Core/DataSetDownloader.swift:158-163 | `DeseaseModel.folder` is nil exactly when the documents directory cannot be resolved; otherwise it is `<documents>/DataSet`. |
| DeseaseModels.FolderName | Core/DataSetDownloader.swift:165-173 | The folder of `covid19` and `noFinding` is their raw value; the folder of `other` is "others", which differs from its raw value. |
| DeseaseModels.FolderNameInjective | Core/DataSetDownloader.swift:165-173 | Distinct classes are stored in distinct folders. |
| DeseaseModels.ImageURL | Core/DataSetDownloader.swift:175-177 | `imageURL` is nil exactly when the documents directory cannot be resolved; otherwise it is `<documents>/DataSet/<folderName(finding)>/<filename>`. |
| FoundationText.Trim | Core/DataSetDownloader.swift:286 | Trimming gives the infix of the text that starts after its leading whitespace and has no whitespace at either end. Everything dropped is whitespace, and newlines are not whitespace here. |
| FoundationText.TrimUnchanged | Core/DataSetDownloader.swift:286 | A text without whitespace at either end is not changed by trimming. |
| FoundationText.TrimIdempotent | Core/DataSetDownloader.swift:286 | Trimming twice is the same as trimming once. |
| FoundationText.ParseInt | Core/DataSetDownloader.swift:258 | `Int(String)` accepts only an optional sign followed by one or more decimal digits, and only values in the 64-bit range. It always accepts such a numeral of up to 18 digits, and a negative result comes from a leading minus sign. |
| FoundationText.ParseIntInRange | Core/DataSetDownloader.swift:258 | A numeral of any length whose value lies in the 64-bit range parses to exactly that value. |
| FoundationText.ParseIntOverflow | Core/DataSetDownloader.swift:258 | A numeral whose value lies outside the 64-bit range gives nil: `Int(String)` reports overflow as nil. |
| FoundationText.ParseIntDescription | Core/DataSetDownloader.swift:262 | Parsing the decimal text of any 64-bit integer gives that integer back. |
| FoundationText.DigitsValueLeadingZero | Core/DataSetDownloader.swift:258 | A leading zero does not change the value of a digit string. |
| FoundationText.ParseIntLeadingZero | Core/DataSetDownloader.swift:258 | Leading zeros do not change what `Int(String)` returns, with or without a sign: "007" parses as "7". |
| FoundationText.ParseIntSign | Core/DataSetDownloader.swift:258 | A leading "+" does not change the result, and a leading "-" negates the value of the digits. With the round trip and the leading-zero rule this fixes the value of every accepted numeral of up to 18 digits, "-0" included. |
| FoundationText.IntDescription | Core/DataSetDownloader.swift:130 | The decimal text of an integer (`\(offset)`) is a numeral `Int(String)` accepts, with a minus sign exactly for negative integers. |
| FoundationText.Capitalized | Core/NetworkService/AsyncOperation.swift:19 | `capitalized` keeps the length and the word delimiters, and raises the first letter of the text. |
| FoundationText.CapitalizedLowerWord | Core/NetworkService/AsyncOperation.swift:19 | A single lower-case word is capitalized by raising its first letter and nothing else. |
| DataSetDownloader.MakeDeseaseModel | Core/DataSetDownloader.swift:255-317 | A row decodes to a record if and only if all thirteen gating keys are present and the `view` and `modality` cells are exact raw values. The record's fields are then the cells, each through its own parser, with missing text keys read as "" and the file name trimmed. |
| DataSetDownloader.GatingKeysAreGatingHeaders | Core/DataSetDownloader.swift:257-282 | The keys the guard chain demands are exactly the thirteen gating headers. |
| DataSetDownloader.MissingGatingKeyRejects | Core/DataSetDownloader.swift:257-282 | A row missing any one gating key is rejected. |
| DataSetDownloader.LenientCellNeverRejects | Core/DataSetDownloader.swift:258-278 | Replacing an integer, double, sex, survival, intubated or finding cell of an accepted row with any text leaves the row accepted. |
| DataSetDownloader.FallbackTextCopied | Core/DataSetDownloader.swift:256-290 | Every fallback text field except `filename` is its cell copied unchanged, or "" when the key is missing. |
| DataSetDownloader.FilenameTrimmed | Core/DataSetDownloader.swift:286 | The `filename` field is its cell, or "", trimmed of whitespace. |
| DataSetDownloader.MissingFallbackKeyIsEmpty | Core/DataSetDownloader.swift:256-290 | A missing patientid, date, location, folder, filename, doi, url, license or clinical_notes key gives "" in that field. |
| DataSetDownloader.FallbackKeysNeverGate | Core/DataSetDownloader.swift:256-290 | Removing any fallback key never changes whether a row is accepted. |
| DataSetDownloader.FindingText | Core/DataSetDownloader.swift:74-83 | Each class has a finding text that classifies to it. |
| DataSetDownloader.IntCellRoundTrip | Core/DataSetDownloader.swift:258 | An absent 64-bit integer written as "" parses to nil; a present one written in decimal parses back to itself. |
| DataSetDownloader.SexCellRoundTrip | Core/DataSetDownloader.swift:260 | A sex cell written from an optional sex parses back to it. |
| DataSetDownloader.YesOrNoCellRoundTrip | Core/DataSetDownloader.swift:266-268 | A yes/no cell written from an optional answer parses back to it. |
| DataSetDownloader.DoubleCellRoundTrip | Core/DataSetDownloader.swift:270-278 | If `Double(_:)` rejects "" and parses back what it formats, an optional measurement written as a cell parses back to it. |
| DataSetDownloader.ViewRawValueInjective | Core/DataSetDownloader.swift:86-94 | Two views with the same raw value are the same view. |
| DataSetDownloader.DecodeTextCells | Core/DataSetDownloader.swift:283-290 | Text cells written from a record whose file name has no surrounding whitespace decode to its text fields. |
| DataSetDownloader.DecodeCodedCells | Core/DataSetDownloader.swift:257-282 | Integer, sex, finding, yes/no, view and modality cells written from a record decode to its fields. |
| DataSetDownloader.DecodeDoubleCells | Core/DataSetDownloader.swift:269-278 | Measurement cells written from a record decode to its measurements. |
| DataSetDownloader.FieldsOfCells | Core/DataSetDownloader.swift:292-316 | The record built from an accepted row holding a record's cells is that record. |
| DataSetDownloader.DecodeCells | Core/DataSetDownloader.swift:255-317 | Round trip: a row with every gating key that holds, under each header read, the cell a record is written as decodes to exactly that record. |
| DataSetDownloader.ParseRows | Core/DataSetDownloader.swift:224-226 | The parsed list is never longer than the rows. |
| DataSetDownloader.ParseRowsAppend | Core/DataSetDownloader.swift:224-226 | Records keep the order of their rows: parsing a concatenation concatenates the parsed lists. |
| DataSetDownloader.ParseOneRow | Core/DataSetDownloader.swift:224-226 | One row parses to its record when accepted and to nothing when rejected. |
| DataSetDownloader.ParseRowsMembers | Core/DataSetDownloader.swift:224-226 | A record is in the parsed list if and only if some row decodes to it. |
| DataSetDownloader.ParseRowsKeepsAll | Core/DataSetDownloader.swift:224-226 | No row is dropped if and only if every row is accepted. |
| DataSetDownloader.ImageRecords | Core/DataSetDownloader.swift:231 | Every record chosen for an image download has folder "images", and none is added. |
| DataSetDownloader.ImageRecordsMembers | Core/DataSetDownloader.swift:231 | A record is chosen if and only if it was parsed and its folder is "images". |
| DataSetDownloader.ImageRecordsAppend | Core/DataSetDownloader.swift:231 | The chosen records keep their order. |
| DataSetDownloader.CsvDownload | Core/DataSetDownloader.swift:202-205 | The metadata download is a GET of `metadata.csv`, saved as `metadata.csv` in the documents directory. It exists exactly when that directory is resolved. |
| DataSetDownloader.ImageDownload | Core/DataSetDownloader.swift:319-327 | An image download is a GET of `<folder>/<filename>` saved at the record's `imageURL`. There is none exactly when `imageURL` is nil. |
| DataSetDownloader.ImageReported | Core/DataSetDownloader.swift:319-336 | `downloadImage` reports success without a download when the documents directory is unresolved; otherwise it reports the outcome of the download. |
| DataSetDownloader.ImageSavedUnderRequestedName | Core/DataSetDownloader.swift:320-327 | For a plain file name (not empty, no "/", not "." or ".."), the image requested as `<folder>/<filename>` is saved under the same file name, inside the folder of its class. |
| DataSetDownloader.CsvNeverOverwritesImage | Core/DataSetDownloader.swift:205 | The metadata file is never saved where an image with a plain file name is saved. |
| DataSetDownloader.Execute | Core/DataSetDownloader.swift:201-253 | The corrected session always completes. It succeeds if and only if the documents directory resolves and the CSV is fetched and read, and each failure maps to its cause. On success the payload is the full parsed list and the scheduled downloads are its "images" records. On failure nothing is scheduled. |
| DataSetDownloader.BlockCalls | Core/DataSetDownloader.swift:240-246 | The completion blocks of the scheduled operations make at most one call each, and every call is `.success(models)`. |
| DataSetDownloader.BlockCallsNone | Core/DataSetDownloader.swift:240-246 | The completion blocks call nothing if and only if none of them finds the queue empty. |
| DataSetDownloader.ExecuteAsWritten | Core/DataSetDownloader.swift:201-253 | As written, each failure path calls `completion` once with a failure and schedules nothing. On success, `completion` is called at most once per scheduled download and only with the full parsed list. |
| DataSetDownloader.AsWrittenSchedulesSame | Core/DataSetDownloader.swift:231-247 | The code as written schedules the same image downloads as the corrected session. |
| DataSetDownloader.AsWrittenFailuresAgree | Core/DataSetDownloader.swift:201-253 | On the failure paths (lines 207, 221 and 250), the code as written calls `completion` exactly once, with the corrected session's failure. |
| DataSetDownloader.AsWrittenSuccessPayload | Core/DataSetDownloader.swift:240-246 | On success, every call the code as written makes delivers the corrected session's payload, and there is at most one call per scheduled download. |
| DataSetDownloader.AsWrittenCompletesOnlyFromBlocks | Core/DataSetDownloader.swift:231-248 | On success, the code as written calls `completion` at all if and only if the completion block of some scheduled download finds the queue empty. |
| DataSetDownloader.PayloadIsFullList | Core/DataSetDownloader.swift:224-243 | Every accepted row's record is in the success payload, whatever its folder, and it is scheduled for download if and only if its folder is "images". |
| DataSetDownloader.AsWrittenSilentWithoutImages | Core/DataSetDownloader.swift:231-248 | As written, a successful session whose rows yield no record in "images" never calls its completion, however the downloads interleave. |
| DataSetDownloader.AsWrittenEmptyCsvNeverCompletes | Core/DataSetDownloader.swift:231-248 | For an empty CSV, the code as written makes no call to `completion`, while the corrected session completes with an empty success payload. |
| Collections.CompactMap | Core/DataSetDownloader.swift:224-226 | `compactMap` is never longer than its input; `CompactMapMembers`, `CompactMapAppend` and `CompactMapTotal` fix its value. |
| Collections.Filter | Core/DataSetDownloader.swift:231 | `filter` is never longer than its input and every element it keeps passes the test; the same operation is applied at Core/DataModelCreator.swift:23. |
| Collections.CompactMapMembers | Core/DataSetDownloader.swift:224-226 | `compactMap` yields a value if and only if some input maps to it. |
| Collections.CompactMapAppend | Core/DataSetDownloader.swift:224-226 | `compactMap` keeps the order of its inputs. |
| Collections.CompactMapTotal | Core/DataModelCreator.swift:27 | `compactMap` drops nothing if and only if every input maps to a value. Then position k of the result is the value of input k. |
| Collections.CompactMapNone | Core/DataModelCreator.swift:27 | When every input maps to nil, `compactMap` yields the empty list. |
| Collections.FilterMembers | Core/DataModelCreator.swift:23 | `filter` keeps an element if and only if it occurs and passes the test. |
| Collections.FilterAppend | Core/DataModelCreator.swift:23 | `filter` keeps the order of the elements. |
| Collections.FilterCount | Core/DataModelCreator.swift:23 | A kept element occurs in the result as often as in the input, and a rejected one not at all. |
| DataModelCreator.WithFinding | Core/DataModelCreator.swift:23 | A group holds only records of its class and is no longer than the input. |
| DataModelCreator.WithFindingMembers | Core/DataModelCreator.swift:23 | A record is in the group of class `d` if and only if it is an input record whose finding is `d`. |
| DataModelCreator.WithFindingAppend | Core/DataModelCreator.swift:23 | Each group keeps the input order. |
| DataModelCreator.GroupCount | Core/DataModelCreator.swift:23 | A record occurs in the group of its own finding as often as in the input, and never in any other group. |
| DataModelCreator.GroupsPartition | Core/DataModelCreator.swift:22-25 | Together the three groups hold every input record exactly as often as the input does. |
| DataModelCreator.GroupSizesSum | Core/DataModelCreator.swift:22-25 | The group sizes add up to the number of records. |
| DataModelCreator.ExactlyOneGroup | Core/DataModelCreator.swift:22-25 | Every record is in the group of its own finding and in no other group. |
| DataModelCreator.ImageURLs | Core/DataModelCreator.swift:27 | A group's image file list is never longer than the group. |
| DataModelCreator.LocalImages | Core/DataModelCreator.swift:27 | Without a documents directory a group's file list is empty. With one, it has one file per record, in order, each the record's `imageURL`. |
| DataModelCreator.GroupModels | Core/DataModelCreator.swift:19-28 | `groupedDeseases` has a key for every class, holding the input records of that class in order. `groupedImageURLs` has exactly the keys "COVID-19", "No Finding" and "Other", each holding the image files of its class's group. |
| DataModelCreator.GroupByFinding | Core/DataModelCreator.swift:22-25 | The first loop leaves one entry per class, each being the filter of the input by that class. |
| DataModelCreator.ImageURLsByLabel | Core/DataModelCreator.swift:26-28 | Whatever order the dictionary is visited in, the second loop stores each group's image files under the class's raw value, and under no other key. |
| DataModelCreator.LabelAndFolder | Core/DataModelCreator.swift:27 | A class's training label equals its folder if and only if the class is not `other`, which is labelled "Other" but stored under "others". |
| AsyncOperations.State.RawValue | Core/NetworkService/AsyncOperation.swift:13-16 | Each state's raw value is its case name, a non-empty word of lower-case ASCII letters. |
| AsyncOperations.State.KeyPath | Core/NetworkService/AsyncOperation.swift:18-20 | The key paths of ready, executing and finished are "isReady", "isExecuting" and "isFinished". |
| AsyncOperations.KeyPathInjective | Core/NetworkService/AsyncOperation.swift:18-20 | Distinct states announce distinct key paths. |
| AsyncOperations.AsyncOperation.constructor | Core/NetworkService/AsyncOperation.swift:23 | A new operation is in state ready, not cancelled, and its body has not run. |
| AsyncOperations.AsyncOperation.IsAsynchronous | Core/NetworkService/AsyncOperation.swift:34-36 | The operation always reports itself as asynchronous. |
| AsyncOperations.AsyncOperation.RunMain | Core/NetworkService/AsyncOperation.swift:52 | The opaque body runs once and may leave any state; it does not touch the cancellation flag. |
| AsyncOperations.AsyncOperation.Start | Core/NetworkService/AsyncOperation.swift:47-54 | A cancelled operation becomes finished without running its body. Any other operation runs its body once and is then executing, whatever the body set. |
| AsyncOperations.AsyncOperation.Cancel | Core/NetworkService/AsyncOperation.swift:56-59 | Cancelling sets the cancellation flag and makes the state finished. |
| AsyncOperations.AsyncOperation.IsReady | Core/NetworkService/AsyncOperation.swift:37-39 | Ready exactly when the superclass is ready and the state is ready. |
| AsyncOperations.AsyncOperation.IsExecuting | Core/NetworkService/AsyncOperation.swift:40-42 | Executing exactly when the state is executing. |
| AsyncOperations.AsyncOperation.IsFinished | Core/NetworkService/AsyncOperation.swift:43-45 | Finished exactly when the state is finished. |
| AsyncOperations.FlagsExclusive | Core/NetworkService/AsyncOperation.swift:37-45 | Of isReady, isExecuting and isFinished at most one holds. If neither isExecuting nor isFinished holds, the state is ready. |
| AsyncOperations.NewOperationFlags | Core/NetworkService/AsyncOperation.swift:23-45 | A new operation is ready exactly when its superclass is ready, and is neither executing, finished nor cancelled. |
| AsyncOperations.CancelBeforeStart | Core/NetworkService/AsyncOperation.swift:47-59 | An operation cancelled before it starts is finished, not executing, and its body never runs. |
| AsyncOperations.StartWithoutCancel | Core/NetworkService/AsyncOperation.swift:47-54 | An operation started without cancellation runs its body once and is executing, not finished. |
| AsyncOperations.CancelAfterStart | Core/NetworkService/AsyncOperation.swift:47-59 | Cancelling a started operation finishes it for good: a later start does not run its body again or make it ready. |
| HTTPMethods.HTTPMethod.RawValue | Core/NetworkService/HTTPMethod.swift:12-20 | Every method token is at least three upper-case ASCII letters. |
| HTTPMethods.HTTPMethod.FromRaw | Core/NetworkService/HTTPMethod.swift:11-21 | `HTTPMethod(rawValue:)` gives the method whose token is exactly the string, and nil when no method has it. |
| HTTPMethods.RawValueInjective | Core/NetworkService/HTTPMethod.swift:12-20 | The nine tokens are pairwise distinct. |
| HTTPMethods.RoundTrip | Core/NetworkService/HTTPMethod.swift:11-21 | Parsing a method's token gives that method back. |
| HTTPMethods.FromRawInverse | Core/NetworkService/HTTPMethod.swift:11-21 | A string parses if and only if it is some method's token, and then to a method with that token. |
| HTTPMethods.LowerCaseIsNoMethod | Core/NetworkService/HTTPMethod.swift:11-21 | Parsing is case-sensitive: any string containing a lower-case letter is no method. |
| HTTPMethods.LowerCaseGetRejected | Core/NetworkService/HTTPMethod.swift:14 | "get" is not parsed as GET. |

## Left out

- Concurrency in `execute` (Core/DataSetDownloader.swift:227-248) is not modelled:
  - the concurrent dispatch queue, and the operation queue limited to ten operations;
  - the semaphore in each block operation;
  - the timing of the `queue.operations.isEmpty` test in each completion block. `ExecuteAsWritten` takes the test's result as an input.
  `Execute` models the sequential outcome only.
- DataSetDownloader.ExecuteAsWritten: which completion blocks find the queue empty depends on how the concurrent downloads interleave. The model takes this as the input `queueEmptyAfter`, so it does not state that `completion` is called exactly once when downloads are scheduled.
- Swift error values are replaced by `PipelineError`, one case per failure cause. The `guard` at line 210 cannot fail after line 205 succeeds, so it has no separate case.
- The outcome of each image download does not reach the session, because `execute` ignores it. `ImageReported` states what `downloadImage` reports.
- Key-value observing (the `willChangeValue`/`didChangeValue` calls around `state`) and the Foundation `Operation` superclass are not modelled. The superclass's readiness is an input, and its `cancel()` is the setting of `isCancelled`.
- AsyncOperations.AsyncOperation.RunMain: the body is opaque. It may leave any state, but the model does not let it cancel the operation or start it again.
- `Double(String)` is an uninterpreted parameter, because it is floating point. Measurements are kept as 64-bit patterns, and nothing computes with them.
- `description` (Core/DataSetDownloader.swift:126-154) is not modelled. `IntDescription` is used only to state the integer round trip.
- CSV tokenising is done by the SwiftCSV library. `namedRows` is taken as a given sequence of header-to-cell maps. `CsvFetch` stands for the download succeeding or failing, and the file reading or not.
- The base URL `Constants.basePath` (Core/DataSetDownloader.swift:187) is not modelled. A `FileRequest` holds only its path, relative to that base URL, and the network client joins the two.
- Network and filesystem access are not modelled. The documents directory lookup is an input, and a download is reduced to its request and destination. Every `imageURL` uses the same lookup as `execute`; in the app the lookup is repeated for each record.
- URLs are sequences of path components. `appendingPathComponent` is not normalised: a file name that is "", ".", "..", or contains "/", stays one component. The file system would instead resolve it elsewhere.
- DataSetDownloader.ImageSavedUnderRequestedName: stated only for plain file names. In the app, "" names the class folder itself, and "../x" lands outside it.
- DataSetDownloader.CsvNeverOverwritesImage: stated only for plain file names. In the app, a `covid19` record with file name "../../metadata.csv" has an `imageURL` that resolves to the metadata file's own path.
- FoundationText.Capitalized: case mapping covers ASCII letters only, and other scripts are left unchanged. Its word delimiters are whitespace and line terminators. The key paths, the only place the app uses it, are lower-case ASCII words.
- FoundationText.ParseInt: the contract itself does not give the value, and promises a result only for numerals of up to 18 digits. `ParseIntInRange` and `ParseIntOverflow` give the result for every numeral of any length: its value when in the 64-bit range, nil otherwise.
- DataSetDownloader.DecodeCells: the round trip is stated for every row that holds a record's cells, not for a concrete row encoder. Doubles round-trip only under the stated assumption that the parser reads back what the formatter writes.
- CreateML training, evaluation, writing and prediction (Core/DataModelCreator.swift:30-88) are not modelled, nor is the `DataModelCreator` class around the two loops.
- The user interface, request building, JSON bridging and the network client are not part of this model.

## Findings

| source | as written | input that shows it | evidently intended | confidence | as-written member | corrected member |
|---|---|---|---|---|---|---|
| Core/DataSetDownloader.swift:231-248 | On success, `completion` is called only from the completion block of an image download operation. With no record in folder "images", no operation is added and `completion` is never called. | A resolvable documents directory and a CSV with no data rows, or whose rows all have a folder other than "images". | Completion with `.success(models)` once every scheduled download is over, including when none is scheduled. | not executed | DataSetDownloader.AsWrittenEmptyCsvNeverCompletes | DataSetDownloader.Execute |
