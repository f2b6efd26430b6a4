# File upload store and batch validator

A Dafny model of the file store and the upload-batch validator of the
file-upload-process demo (a Spring Boot service). The service accepts a
batch of exactly two uploads declared as one PDF and one XML. An upload whose
cleaned name ends in `.xml` is stored as `source.xml`, one whose cleaned name
ends in `.pdf` as `source.pdf`, and any other upload under its own cleaned
name, unless that name contains `..`, which is refused. The service
serves stored files back by name, and "processes" by copying `source.xml`
byte for byte to `out.xml` through a 1024-byte buffer.

The storage directory is a flat table from file names to contents
(`map<string, seq<byte>>`). Resolving a name against the storage root is this
table's key. Spring's `StringUtils.cleanPath` is not visible code, so it is
left uninterpreted: it is a `string -> string` value given to the store's
constructor.

Files and modules:

- `types.dfy`, module `Types`: bytes, `Option`/`Result`, the exceptions the
  store and controller throw (`Failure`) with their message texts, the uploaded part
  (`MultipartFile`) and the returned handle (`Resource`).
- `file_names.dfy`, module `FileNames`: the pure name handling of `storeFile`.
  It covers the case-sensitive suffix renaming (`CanonicalName`), the `..`
  check (`CheckName`), and lemmas about both.
- `file_storage.dfy`, module `FileStorage`: the directory-level functions
  `Store`, `Load` and `Process` with their lemmas. It also has the classes
  `FileInputStream` (the stream read by the copy loop) and
  `FileStorageService`, whose methods update its `files` field. Each method's
  postcondition ties its outcome and new state to one of those functions.
- `file_controller.dfy`, module `FileController`: the batch check
  (`CheckBatch`), the functions `UploadOne` / `UploadAll` / `UploadMultiple`
  with their lemmas, and the class `FileController`, whose methods call the
  store.

What the code does that a reader might not expect:

- A name with neither `.xml` nor `.pdf` is stored under its cleaned name,
  unless that name contains `..`, which is refused. It is not rejected as an
  unsupported type.
- The `..` check does not keep `storeFile` inside the root either. A cleaned
  absolute name such as `/etc/cron.d/job` has no `..` and passes
  (`AbsoluteNameAccepted`); `resolve` of an absolute name leaves the root. The
  model keys the table by the name and does not track where that path lies.
- `loadFileAsResource` does not check that the resolved path stays inside the
  root. `Load` succeeds for exactly the names present in the table, whatever
  they contain.
- An I/O failure during the copy makes `loadFileAsRes` return `null` rather
  than raise a copy error. This path is left out (see below).
- The batch check looks only at the declared content types, not at the names.
  A file declared `text/xml` but named `../x` passes the check, and its store
  then throws. When it is the second file of the batch, the first file has
  already been stored and stays in place (`LaterRejectionKeepsEarlierStore`).
  When it is the first file, nothing is stored (`EarlierRejectionStoresNothing`).

## Model

| member | source | states |
|---|---|---|
| FileNames.CanonicalName | src/main/java/com/example/filedemo/service/FileStorageService.java:38-42 | the stored name is `source.xml`, `source.pdf` or the cleaned name itself |
| FileNames.CheckName | src/main/java/com/example/filedemo/service/FileStorageService.java:38-48 | the check fails iff the canonical name contains `..`; on success the returned name is the canonical name; on failure the exception names the cleaned name, which holds `..` |
| FileNames.CanonicalNamesAreSafe | src/main/java/com/example/filedemo/service/FileStorageService.java:39-48 | none of `source.xml`, `source.pdf`, `out.xml` contains `..` |
| FileNames.XmlNameRenamed | src/main/java/com/example/filedemo/service/FileStorageService.java:39-40 | any base name followed by `.xml` is renamed to `source.xml` |
| FileNames.PdfNameRenamed | src/main/java/com/example/filedemo/service/FileStorageService.java:41-42 | any base name followed by `.pdf` is renamed to `source.pdf` |
| FileNames.SuffixTestIsCaseSensitive | src/main/java/com/example/filedemo/service/FileStorageService.java:39-42 | `A.XML` is neither renamed nor rejected |
| FileNames.UpperCaseSuffixKept | src/main/java/com/example/filedemo/service/FileStorageService.java:39-42 | every name ending in `.XML` or `.PDF` keeps its own name, and is accepted when it holds no `..` |
| FileNames.RenamedNameAccepted | src/main/java/com/example/filedemo/service/FileStorageService.java:39-48 | a name ending in `.xml` or `.pdf` is never rejected by the `..` check and yields its canonical name |
| FileNames.TraversalHiddenByRename | src/main/java/com/example/filedemo/service/FileStorageService.java:38-48 | the cleaned name `../../evil.xml` is accepted as `source.xml` |
| FileNames.AbsoluteNameAccepted | src/main/java/com/example/filedemo/service/FileStorageService.java:38-51 | the cleaned absolute name `/etc/cron.d/job` passes the `..` check unchanged |
| FileNames.UnsupportedTraversalRejected | src/main/java/com/example/filedemo/service/FileStorageService.java:46-48 | a name with neither suffix that contains `..` is rejected with the invalid-path exception naming it |
| FileNames.UnsupportedNameKept | src/main/java/com/example/filedemo/service/FileStorageService.java:39-54 | a name with neither suffix and no `..` is accepted unchanged (no unsupported-type rejection) |
| FileNames.CanonicalNameIdempotent | src/main/java/com/example/filedemo/service/FileStorageService.java:38-42 | renaming a canonical name again changes nothing |
| Types.Message | src/main/java/com/example/filedemo/service/FileStorageService.java:46-72 | reference definition of the exception texts of FileStorageService.java:47 and :67 and FileController.java:52, :55 and :57; `LoadFindsExactlyPresentNames` proves the not-found text names the file |
| FileStorage.Store | src/main/java/com/example/filedemo/service/FileStorageService.java:38-54 | reference definition of storeFile on a directory: the `CheckName` outcome, then a replace-write under that name; `StoreWritesOnlyItsName`, `StoreThenLoad`, `StoreXmlThenLoadSource` and `StorePdfThenLoadSource` carry its properties, and `FileStorageService.StoreFile` is proved equal to it |
| FileStorage.Load | src/main/java/com/example/filedemo/service/FileStorageService.java:60-72 | reference definition of loadFileAsResource: the entry or not-found naming the file; `LoadFindsExactlyPresentNames` and `StoreThenLoad` carry its properties, and `FileStorageService.LoadFileAsResource` is proved equal to it |
| FileStorage.Process | src/main/java/com/example/filedemo/service/FileStorageService.java:74-116 | reference definition of loadFileAsRes: `out.xml` set to the bytes of `source.xml`, or not-found naming `source.xml`; `ProcessCopiesSourceOnly` and `ProcessIdempotent` carry its properties, and the buffered loop of `FileStorageService.LoadFileAsRes` is proved equal to it |
| FileStorage.StoreWritesOnlyItsName | src/main/java/com/example/filedemo/service/FileStorageService.java:46-54 | a successful store maps the returned name to the content and leaves every other entry as it was; a rejected store changes nothing |
| FileStorage.StoreThenLoad | src/main/java/com/example/filedemo/service/FileStorageService.java:36-72 | loading the name a store returned gives back exactly the stored bytes |
| FileStorage.StoreXmlThenLoadSource | src/main/java/com/example/filedemo/service/FileStorageService.java:36-72 | storing C under any `.xml` name returns `source.xml`, and loading `source.xml` afterwards yields C |
| FileStorage.StorePdfThenLoadSource | src/main/java/com/example/filedemo/service/FileStorageService.java:36-72 | storing C under any `.pdf` name returns `source.pdf`, and loading `source.pdf` afterwards yields C |
| FileStorage.LoadFindsExactlyPresentNames | src/main/java/com/example/filedemo/service/FileStorageService.java:60-72 | a load succeeds iff the name is present and returns its bytes; otherwise the message is "File not found " plus the name |
| FileStorage.ProcessCopiesSourceOnly | src/main/java/com/example/filedemo/service/FileStorageService.java:74-116 | with `source.xml` present, `out.xml` ends equal to it and every other entry is unchanged; without it the call fails naming `source.xml` and nothing changes |
| FileStorage.ProcessIdempotent | src/main/java/com/example/filedemo/service/FileStorageService.java:90-98 | processing twice in a row gives the same outcome and the same `out.xml` as processing once |
| FileStorage.FileInputStream.Read | src/main/java/com/example/filedemo/service/FileStorageService.java:96 | reads the next 1 to `buffer.Length` bytes of the file (any count in that range) into the buffer's front and advances; -1 at end of file, 0 for an empty buffer |
| FileStorage.FileStorageService.constructor | src/main/java/com/example/filedemo/service/FileStorageService.java:26-34 | the store starts over the given directory contents and name cleaner |
| FileStorage.FileStorageService.StoreFile | src/main/java/com/example/filedemo/service/FileStorageService.java:36-58 | outcome and new directory are those of `Store` on the cleaned upload name |
| FileStorage.FileStorageService.LoadFileAsResource | src/main/java/com/example/filedemo/service/FileStorageService.java:60-72 | returns what `Load` gives (the entry for the name if present, else not-found naming it, by `LoadFindsExactlyPresentNames`); the directory is not changed |
| FileStorage.FileStorageService.LoadFileAsRes | src/main/java/com/example/filedemo/service/FileStorageService.java:74-116 | outcome and new directory are those of `Process`; the loop keeps `out.xml` equal to the prefix of `source.xml` read so far; the chunks written are each 1 to 1024 bytes long and concatenate to `source.xml` |
| FileController.CheckBatch | src/main/java/com/example/filedemo/controller/FileController.java:45-57 | passes iff there are exactly two files whose declared types are, as a multiset, {`application/pdf`, `text/xml`}; fewer than two gives "Less than 2", more than two "More than 2", a wrong pair the file-type exception |
| FileController.ResponseFor | src/main/java/com/example/filedemo/controller/FileController.java:39 | reference definition of one response entry: stored name, locator, declared type and size; `UploadAllResponses` and `AcceptedBatchStoresBoth` state which entry each file gets |
| FileController.UploadOne | src/main/java/com/example/filedemo/controller/FileController.java:32-40 | reference definition of uploadFile: `Store` on the cleaned name, then the file's response entry; `FileController.UploadFile` is proved equal to it |
| FileController.UploadAll | src/main/java/com/example/filedemo/controller/FileController.java:48-50 | reference definition of the upload loop: `UploadOne` per file in order, stopping at the first exception; `UploadAllStopsAtFailure`, `UploadAllResponses` and `UploadTwoSteps` carry its properties |
| FileController.UploadMultiple | src/main/java/com/example/filedemo/controller/FileController.java:42-60 | reference definition of uploadMultipleFiles: `CheckBatch` first, then `UploadAll`; `RejectedBatchStoresNothing`, `AcceptedBatchStoresBoth`, `LaterRejectionKeepsEarlierStore`, `EarlierRejectionStoresNothing` and the two scenarios carry its properties, and `FileController.UploadMultipleFiles` is proved equal to it |
| FileController.UploadTwoSteps | src/main/java/com/example/filedemo/controller/FileController.java:48-50 | uploading a two-file batch is the first upload followed by the second, stopping at the first exception |
| FileController.UploadAllStopsAtFailure | src/main/java/com/example/filedemo/controller/FileController.java:48-50 | once an upload in the batch throws, the later files are not stored |
| FileController.UploadAllResponses | src/main/java/com/example/filedemo/controller/FileController.java:48-50 | when every name passes, there is one response per file in order, carrying the stored name, the declared type and the size |
| FileController.RejectedBatchStoresNothing | src/main/java/com/example/filedemo/controller/FileController.java:45-57 | a batch the check refuses fails with that exception and leaves the directory unchanged |
| FileController.AcceptedBatchStoresBoth | src/main/java/com/example/filedemo/controller/FileController.java:45-50 | an accepted batch whose names pass stores file 0 then file 1 and returns their two responses in that order |
| FileController.LaterRejectionKeepsEarlierStore | src/main/java/com/example/filedemo/controller/FileController.java:46-50 | an accepted batch whose second name is refused fails with the invalid-path exception, and the first file stays stored |
| FileController.EarlierRejectionStoresNothing | src/main/java/com/example/filedemo/controller/FileController.java:46-50 | an accepted batch whose first name is refused fails with the invalid-path exception, and nothing is stored |
| FileController.ReportPairScenario | src/main/java/com/example/filedemo/controller/FileController.java:42-60 | `report.xml` + `report.pdf` are stored as `source.xml` and `source.pdf` with two responses naming them |
| FileController.TwoPdfsScenario | src/main/java/com/example/filedemo/controller/FileController.java:46-52 | two files both declared `application/pdf` fail with the file-type exception and store nothing |
| FileController.FileController.constructor | src/main/java/com/example/filedemo/controller/FileController.java:29-30 | the controller uses the given store and process locator |
| FileController.FileController.UploadFile | src/main/java/com/example/filedemo/controller/FileController.java:32-40 | outcome and new directory are those of `UploadOne`: the stored name, the locator, the declared type and the size |
| FileController.FileController.UploadMultipleFiles | src/main/java/com/example/filedemo/controller/FileController.java:42-60 | outcome and new directory are those of `UploadMultiple`: the check first, then one store per file in order |

## Left out

- Constructor directory creation (`Files.createDirectories` and its startup failure): filesystem I/O. The root is fixed and the constructor takes the directory's current contents.
- `StringUtils.cleanPath` and java.nio `resolve`/`normalize`/`toAbsolutePath`: not visible code. `cleanPath` is an uninterpreted function and resolution is a map key.
- FileStorage.FileStorageService.StoreFile: does not model the `IOException` from `Files.copy` (real I/O failure), so the "Could not store file" exception never arises.
- FileStorage.FileStorageService.LoadFileAsRes: does not model an I/O failure during the copy, which returns `null`. It also omits the failure to open `out.xml` and the final `exists()` check on `out.xml`, which always succeeds once the copy is done.
- FileStorage.FileInputStream.Read: its body always fills as much of the buffer as the file has left. Its contract allows any count from 1 to the buffer size, and `LoadFileAsRes` is proved against that contract, so shorter reads give the same copy.
- `UrlResource`, `exists()` as a filesystem probe, `MalformedURLException`, unclosed streams and logging: resource handling with no effect on the directory's contents.
- HTTP plumbing: request mapping, the `ServletUriComponentsBuilder` locator (a constant of the controller here), MIME-type guessing with the octet-stream fallback, and the `Content-Disposition` headers of `downloadFile`/`processFile`.
- Concurrency: the code has no locking, and the model is sequential.
- Null names and content types (a null content type makes the check throw a `NullPointerException`): every string here is present.
