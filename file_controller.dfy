/** FileController: the upload-batch check and the ordered stores behind it. */
module FileController {
  import opened Types
  import opened FileNames
  import opened FileStorage

  const PdfType: string := "application/pdf"
  const XmlType: string := "text/xml"

  /** What the controller reports for each stored upload. */
  datatype UploadFileResponse =
    UploadFileResponse(fileName: string, fileProcessUri: string, fileType: string, size: nat)

  /** The exception the batch check throws, if any. A batch passes only with
      exactly two files declared as one PDF and one XML, in either order. */
  function CheckBatch(batch: seq<MultipartFile>): (r: Option<Failure>)
    ensures r == None <==>
      |batch| == 2 && multiset{batch[0].contentType, batch[1].contentType} == multiset{PdfType, XmlType}
    ensures |batch| < 2 ==> r == Some(LessThanTwoFiles)
    ensures |batch| > 2 ==> r == Some(MoreThanTwoFiles)
    ensures |batch| == 2 && r.Some? ==> r == Some(WrongFileTypes)
  {
    if |batch| == 2 then
      var t0, t1 := batch[0].contentType, batch[1].contentType;
      if (t0 == PdfType && t1 == XmlType) || (t0 == XmlType && t1 == PdfType) then None
      else
        assert multiset{t0, t1}[t0] >= 1 && multiset{t0, t1}[t1] >= 1;
        Some(WrongFileTypes)
    else if |batch| < 2 then Some(LessThanTwoFiles)
    else Some(MoreThanTwoFiles)
  }

  /** The response entry for an upload stored under `name`. */
  function ResponseFor(name: string, uri: string, file: MultipartFile): UploadFileResponse
  {
    UploadFileResponse(name, uri, file.contentType, file.Size())
  }

  /** uploadFile on a directory: store one upload and build its response. */
  function UploadOne(files: Dir, clean: string -> string, uri: string, file: MultipartFile)
    : (Result<UploadFileResponse, Failure>, Dir)
  {
    var (stored, after) := Store(files, clean(file.originalFilename), file.content);
    match stored
    case Ok(name) => (Ok(ResponseFor(name, uri, file)), after)
    case Err(e) => (Err(e), after)
  }

  /** The loop of uploadMultipleFiles on a directory: upload each file in
      order, stopping at the first exception with the stores done so far. */
  function UploadAll(files: Dir, clean: string -> string, uri: string, batch: seq<MultipartFile>)
    : (Result<seq<UploadFileResponse>, Failure>, Dir)
    decreases |batch|
  {
    if batch == [] then (Ok([]), files)
    else
      var (done, mid) := UploadAll(files, clean, uri, batch[..|batch| - 1]);
      match done
      case Err(e) => (Err(e), mid)
      case Ok(responses) =>
        var (last, after) := UploadOne(mid, clean, uri, batch[|batch| - 1]);
        match last
        case Err(e) => (Err(e), after)
        case Ok(response) => (Ok(responses + [response]), after)
  }

  /** uploadMultipleFiles on a directory: check the batch, then upload it. */
  function UploadMultiple(files: Dir, clean: string -> string, uri: string, batch: seq<MultipartFile>)
    : (Result<seq<UploadFileResponse>, Failure>, Dir)
  {
    match CheckBatch(batch)
    case Some(e) => (Err(e), files)
    case None => UploadAll(files, clean, uri, batch)
  }

  /** Once a prefix of the batch has failed, the rest of it changes nothing. */
  lemma {:induction false} UploadAllStopsAtFailure(
    files: Dir, clean: string -> string, uri: string, batch: seq<MultipartFile>, i: nat)
    requires i <= |batch|
    requires UploadAll(files, clean, uri, batch[..i]).0.Err?
    ensures UploadAll(files, clean, uri, batch) == UploadAll(files, clean, uri, batch[..i])
    decreases |batch| - i
  {
    if i < |batch| {
      var front := batch[..|batch| - 1];
      assert front[..i] == batch[..i];
      UploadAllStopsAtFailure(files, clean, uri, front, i);
    } else {
      assert batch[..i] == batch;
    }
  }

  /** When every name passes the check, the batch yields one response per
      file, in order, each carrying the stored name, declared type and size. */
  lemma {:induction false} UploadAllResponses(
    files: Dir, clean: string -> string, uri: string, batch: seq<MultipartFile>)
    requires forall i :: 0 <= i < |batch| ==> CheckName(clean(batch[i].originalFilename)).Ok?
    ensures UploadAll(files, clean, uri, batch).0.Ok?
    ensures |UploadAll(files, clean, uri, batch).0.value| == |batch|
    ensures forall i :: 0 <= i < |batch| ==>
      UploadAll(files, clean, uri, batch).0.value[i] ==
        ResponseFor(CheckName(clean(batch[i].originalFilename)).value, uri, batch[i])
    decreases |batch|
  {
    if batch != [] {
      var front, last := batch[..|batch| - 1], batch[|batch| - 1];
      forall i | 0 <= i < |front|
        ensures CheckName(clean(front[i].originalFilename)).Ok?
      {
        assert front[i] == batch[i];
      }
      UploadAllResponses(files, clean, uri, front);
      var (done, mid) := UploadAll(files, clean, uri, front);
      var name := CheckName(clean(last.originalFilename)).value;
      var entry := ResponseFor(name, uri, last);
      assert Store(mid, clean(last.originalFilename), last.content).0 == Ok(name);
      assert UploadOne(mid, clean, uri, last).0 == Ok(entry);
      var all := done.value + [entry];
      assert UploadAll(files, clean, uri, batch).0 == Ok(all);
      forall i | 0 <= i < |batch|
        ensures all[i] == ResponseFor(CheckName(clean(batch[i].originalFilename)).value, uri, batch[i])
      {
        if i < |front| {
          assert front[i] == batch[i];
        }
      }
    }
  }

  /** A batch the check refuses fails with that check's exception and
      stores nothing. */
  lemma RejectedBatchStoresNothing(files: Dir, clean: string -> string, uri: string, batch: seq<MultipartFile>)
    requires CheckBatch(batch).Some?
    ensures UploadMultiple(files, clean, uri, batch) == (Err(CheckBatch(batch).value), files)
  {
  }

  /** A two-file batch is the first upload followed by the second. */
  lemma UploadTwoSteps(files: Dir, clean: string -> string, uri: string, batch: seq<MultipartFile>)
    requires |batch| == 2
    ensures var (r0, mid) := UploadOne(files, clean, uri, batch[0]);
      UploadAll(files, clean, uri, batch) ==
        if r0.Err? then (Err(r0.error), mid)
        else
          var (r1, after) := UploadOne(mid, clean, uri, batch[1]);
          if r1.Err? then (Err(r1.error), after) else (Ok([r0.value, r1.value]), after)
  {
    var first := batch[..1];
    assert first[..0] == [] && first[0] == batch[0];
    assert UploadAll(files, clean, uri, first[..0]) == (Ok([]), files);
    var (r0, mid) := UploadOne(files, clean, uri, batch[0]);
    if r0.Ok? {
      assert [] + [r0.value] == [r0.value];
    }
    assert UploadAll(files, clean, uri, first) == if r0.Err? then (Err(r0.error), mid) else (Ok([r0.value]), mid);
    assert batch[..1] == first && batch[1] == batch[|batch| - 1];
    if r0.Ok? {
      var (r1, after) := UploadOne(mid, clean, uri, batch[1]);
      if r1.Ok? { assert [r0.value] + [r1.value] == [r0.value, r1.value]; }
    }
  }

  /** An accepted batch whose two names both pass stores the first file and
      then the second, and reports them in that order. */
  lemma AcceptedBatchStoresBoth(files: Dir, clean: string -> string, uri: string, batch: seq<MultipartFile>)
    requires CheckBatch(batch) == None
    requires CheckName(clean(batch[0].originalFilename)).Ok?
    requires CheckName(clean(batch[1].originalFilename)).Ok?
    ensures var (r, after) := UploadMultiple(files, clean, uri, batch);
      var n0, n1 := CheckName(clean(batch[0].originalFilename)).value, CheckName(clean(batch[1].originalFilename)).value;
      r == Ok([ResponseFor(n0, uri, batch[0]), ResponseFor(n1, uri, batch[1])]) &&
      after == files[n0 := batch[0].content][n1 := batch[1].content]
  {
    UploadTwoSteps(files, clean, uri, batch);
  }

  /** The check looks at declared types only: when the second name is refused,
      the first file stays stored and the batch fails with the name's exception. */
  lemma LaterRejectionKeepsEarlierStore(files: Dir, clean: string -> string, uri: string, batch: seq<MultipartFile>)
    requires CheckBatch(batch) == None
    requires CheckName(clean(batch[0].originalFilename)).Ok?
    requires CheckName(clean(batch[1].originalFilename)).Err?
    ensures var (r, after) := UploadMultiple(files, clean, uri, batch);
      r == Err(InvalidPathSequence(clean(batch[1].originalFilename))) &&
      after == files[CheckName(clean(batch[0].originalFilename)).value := batch[0].content]
  {
    UploadTwoSteps(files, clean, uri, batch);
  }

  /** When the first name is refused, the batch fails with that name's
      exception before anything is stored. */
  lemma EarlierRejectionStoresNothing(files: Dir, clean: string -> string, uri: string, batch: seq<MultipartFile>)
    requires CheckBatch(batch) == None
    requires CheckName(clean(batch[0].originalFilename)).Err?
    ensures UploadMultiple(files, clean, uri, batch) ==
      (Err(InvalidPathSequence(clean(batch[0].originalFilename))), files)
  {
    UploadTwoSteps(files, clean, uri, batch);
  }

  /** Uploading `report.xml` (text/xml) and `report.pdf` (application/pdf)
      stores them as `source.xml` and `source.pdf` and reports both names. */
  lemma ReportPairScenario(files: Dir, clean: string -> string, uri: string)
    requires clean("report.xml") == "report.xml" && clean("report.pdf") == "report.pdf"
    ensures var xml := MultipartFile("report.xml", XmlType, [60, 97, 47, 62]);
      var pdf := MultipartFile("report.pdf", PdfType, [37, 80, 68, 70, 45, 49, 46, 52]);
      var (r, after) := UploadMultiple(files, clean, uri, [xml, pdf]);
      r == Ok([UploadFileResponse(SourceXml, uri, XmlType, 4), UploadFileResponse(SourcePdf, uri, PdfType, 8)]) &&
      after == files[SourceXml := xml.content][SourcePdf := pdf.content]
  {
    var xml := MultipartFile("report.xml", XmlType, [60, 97, 47, 62]);
    var pdf := MultipartFile("report.pdf", PdfType, [37, 80, 68, 70, 45, 49, 46, 52]);
    XmlNameRenamed("report");
    PdfNameRenamed("report");
    RenamedNameAccepted("report.xml");
    RenamedNameAccepted("report.pdf");
    AcceptedBatchStoresBoth(files, clean, uri, [xml, pdf]);
  }

  /** Two files both declared `application/pdf` are refused before any store. */
  lemma TwoPdfsScenario(files: Dir, clean: string -> string, uri: string, a: seq<byte>, b: seq<byte>)
    ensures var batch := [MultipartFile("a.pdf", PdfType, a), MultipartFile("b.pdf", PdfType, b)];
      UploadMultiple(files, clean, uri, batch) == (Err(WrongFileTypes), files)
  {
  }

  /** The REST controller over one file store. */
  class FileController {
    const storage: FileStorageService
    /** The `/processFile/` locator put into every response. */
    const processUri: string

    constructor (storage: FileStorageService, processUri: string)
      ensures this.storage == storage && this.processUri == processUri
    {
      this.storage := storage;
      this.processUri := processUri;
    }

    /** Stores one upload and builds its response entry. */
    method UploadFile(file: MultipartFile) returns (r: Result<UploadFileResponse, Failure>)
      modifies storage`files
      ensures (r, storage.files) == UploadOne(old(storage.files), storage.cleanPath, processUri, file)
    {
      var stored := storage.StoreFile(file);
      match stored
      case Err(e) => return Err(e);
      case Ok(fileName) => return Ok(UploadFileResponse(fileName, processUri, file.contentType, file.Size()));
    }

    /** Checks the batch, then uploads its files in the order received,
        collecting one response entry per file. */
    method UploadMultipleFiles(files: seq<MultipartFile>) returns (r: Result<seq<UploadFileResponse>, Failure>)
      modifies storage`files
      ensures (r, storage.files) == UploadMultiple(old(storage.files), storage.cleanPath, processUri, files)
    {
      var result: seq<UploadFileResponse> := [];
      if |files| == 2 {
        var t0, t1 := files[0].contentType, files[1].contentType;
        if (t0 == PdfType && t1 == XmlType) || (t0 == XmlType && t1 == PdfType) {
          for i := 0 to |files|
            invariant (Ok(result), storage.files) == UploadAll(old(storage.files), storage.cleanPath, processUri, files[..i])
          {
            assert files[..i + 1][..i] == files[..i];
            var response := UploadFile(files[i]);
            match response
            case Err(e) =>
              UploadAllStopsAtFailure(old(storage.files), storage.cleanPath, processUri, files, i + 1);
              return Err(e);
            case Ok(entry) =>
              result := result + [entry];
          }
          assert files[..|files|] == files;
        } else {
          return Err(WrongFileTypes);
        }
      } else if |files| < 2 {
        return Err(LessThanTwoFiles);
      } else {
        return Err(MoreThanTwoFiles);
      }
      return Ok(result);
    }
  }
}
