/** FileStorageService: the storage directory as a flat table from file
    names to contents, with store, load and the XML-to-`out.xml` copy. */
module FileStorage {
  import opened Types
  import opened FileNames

  /** The storage directory: each file name present maps to its bytes. */
  type Dir = map<string, seq<byte>>

  /** The size of the copy buffer of loadFileAsRes. */
  const BufferSize: nat := 1024

  /** storeFile on a directory: the outcome and the directory afterwards. */
  function Store(files: Dir, cleaned: string, content: seq<byte>): (Result<string, Failure>, Dir)
  {
    match CheckName(cleaned)
    case Ok(name) => (Ok(name), files[name := content])
    case Err(e) => (Err(e), files)
  }

  /** loadFileAsResource on a directory. */
  function Load(files: Dir, fileName: string): Result<Resource, Failure>
  {
    if fileName in files then Ok(Resource(fileName, files[fileName]))
    else Err(FileNotFound(fileName))
  }

  /** loadFileAsRes on a directory: the outcome and the directory afterwards. */
  function Process(files: Dir): (Result<Resource, Failure>, Dir)
  {
    if SourceXml in files then
      (Ok(Resource(OutXml, files[SourceXml])), files[OutXml := files[SourceXml]])
    else
      (Err(FileNotFound(SourceXml)), files)
  }

  /** The bytes of a sequence of written chunks, in order. */
  ghost function Flatten(chunks: seq<seq<byte>>): seq<byte>
  {
    if chunks == [] then [] else Flatten(chunks[..|chunks| - 1]) + chunks[|chunks| - 1]
  }

  /** A successful store writes the content under the returned name and
      touches no other entry; a rejected one changes nothing. */
  lemma StoreWritesOnlyItsName(files: Dir, cleaned: string, content: seq<byte>)
    ensures var (r, after) := Store(files, cleaned, content);
      (r.Ok? ==>
        r.value in after && after[r.value] == content &&
        forall k :: k != r.value ==> (k in after <==> k in files) && (k in files ==> after[k] == files[k])) &&
      (r.Err? ==> after == files)
  {
  }

  /** Loading the name a store returned gives back exactly the stored bytes. */
  lemma StoreThenLoad(files: Dir, cleaned: string, content: seq<byte>)
    requires Store(files, cleaned, content).0.Ok?
    ensures var (r, after) := Store(files, cleaned, content);
      Load(after, r.value) == Ok(Resource(r.value, content))
  {
  }

  /** Storing C under any `.xml` name and then loading `source.xml` yields C. */
  lemma StoreXmlThenLoadSource(files: Dir, base: string, content: seq<byte>)
    ensures Store(files, base + XmlSuffix, content).0 == Ok(SourceXml)
    ensures Load(Store(files, base + XmlSuffix, content).1, SourceXml) == Ok(Resource(SourceXml, content))
  {
    XmlNameRenamed(base);
    RenamedNameAccepted(base + XmlSuffix);
  }

  /** Storing C under any `.pdf` name and then loading `source.pdf` yields C. */
  lemma StorePdfThenLoadSource(files: Dir, base: string, content: seq<byte>)
    ensures Store(files, base + PdfSuffix, content).0 == Ok(SourcePdf)
    ensures Load(Store(files, base + PdfSuffix, content).1, SourcePdf) == Ok(Resource(SourcePdf, content))
  {
    PdfNameRenamed(base);
    CanonicalNamesAreSafe();
  }

  /** A load succeeds exactly for a name present in the directory (there is
      no check that keeps it inside the storage root) and otherwise names it. */
  lemma LoadFindsExactlyPresentNames(files: Dir, fileName: string)
    ensures Load(files, fileName).Ok? <==> fileName in files
    ensures Load(files, fileName).Ok? ==> Load(files, fileName).value.content == files[fileName]
    ensures Load(files, fileName).Err? ==> Message(Load(files, fileName).error) == "File not found " + fileName
  {
  }

  /** After processing, `out.xml` holds exactly the bytes of `source.xml`,
      and every other entry, `source.xml` and `source.pdf` included, is as
      before. Without `source.xml` nothing changes and the failure names it. */
  lemma ProcessCopiesSourceOnly(files: Dir)
    ensures var (r, after) := Process(files);
      (SourceXml in files ==>
        r.Ok? && r.value.fileName == OutXml && OutXml in after && SourceXml in after &&
        after[OutXml] == after[SourceXml] == r.value.content == files[SourceXml]) &&
      (forall k :: k != OutXml ==> (k in after <==> k in files) && (k in files ==> after[k] == files[k])) &&
      (SourceXml !in files ==> r == Err(FileNotFound(SourceXml)) && after == files)
  {
  }

  /** Processing twice in a row gives the same outcome and the same `out.xml`. */
  lemma ProcessIdempotent(files: Dir)
    ensures Process(Process(files).1) == Process(files)
  {
    if SourceXml in files {
      var once := Process(files).1;
      assert once[SourceXml] == files[SourceXml];
      assert once[OutXml := once[SourceXml]] == once;
    }
  }

  /** A stream reading a file from its start, as FileInputStream does. */
  class FileInputStream {
    const data: seq<byte>
    var pos: nat

    ghost predicate Valid()
      reads this
    {
      pos <= |data|
    }

    constructor (data: seq<byte>)
      ensures Valid() && this.data == data && pos == 0
    {
      this.data := data;
      pos := 0;
    }

    /** Reads up to `buffer.Length` bytes into the front of `buffer`;
        returns how many, or -1 at end of stream. The contract admits any
        count from 1 to `buffer.Length`, as a real stream's may be. */
    method Read(buffer: array<byte>) returns (length: int)
      requires Valid()
      modifies this`pos, buffer
      ensures Valid()
      ensures buffer.Length == 0 ==> length == 0 && pos == old(pos)
      ensures buffer.Length > 0 && old(pos) == |data| ==> length == -1 && pos == old(pos)
      ensures buffer.Length > 0 && old(pos) < |data| ==>
        0 < length <= buffer.Length && pos == old(pos) + length &&
        buffer[..length] == data[old(pos)..pos]
    {
      if buffer.Length == 0 {
        return 0;
      }
      if pos == |data| {
        return -1;
      }
      length := if |data| - pos < buffer.Length then |data| - pos else buffer.Length;
      forall i | 0 <= i < length {
        buffer[i] := data[pos + i];
      }
      pos := pos + length;
    }
  }

  /** The file store over one storage directory. */
  class FileStorageService {
    /** The directory's contents; `resolve(name)` is the key `name`. */
    var files: Dir
    /** Spring's StringUtils.cleanPath, left uninterpreted. */
    const cleanPath: string -> string

    constructor (cleanPath: string -> string, existing: Dir)
      ensures this.cleanPath == cleanPath && files == existing
    {
      this.cleanPath := cleanPath;
      files := existing;
    }

    /** Stores an upload under its canonical name, replacing any old entry,
        and returns that name; a name with `..` left is refused. */
    method StoreFile(file: MultipartFile) returns (r: Result<string, Failure>)
      modifies this`files
      ensures (r, files) == Store(old(files), cleanPath(file.originalFilename), file.content)
    {
      var fileName := CanonicalName(cleanPath(file.originalFilename));
      if Contains(fileName, ParentSequence) {
        return Err(InvalidPathSequence(fileName));
      }
      files := files[fileName := file.content];
      return Ok(fileName);
    }

    /** Looks a name up in the directory, failing with not-found naming it. */
    method LoadFileAsResource(fileName: string) returns (r: Result<Resource, Failure>)
      ensures r == Load(files, fileName)
    {
      if fileName !in files {
        return Err(FileNotFound(fileName));
      }
      return Ok(Resource(fileName, files[fileName]));
    }

    /** Copies `source.xml` to `out.xml` through a 1024-byte buffer and
        returns `out.xml`. The source is opened first, so without it the call
        fails before `out.xml` is created or truncated. The ghost `chunks`
        records each write; its postconditions alone would hold for any split
        of `source.xml` into pieces of 1 to 1024 bytes. That they are the
        actual writes follows from the loop body, which appends each written
        chunk, and the invariant tying their concatenation to `out.xml`. */
    method LoadFileAsRes() returns (r: Result<Resource, Failure>, ghost chunks: seq<seq<byte>>)
      modifies this`files
      ensures (r, files) == Process(old(files))
      ensures SourceXml in old(files) ==> Flatten(chunks) == old(files)[SourceXml]
      ensures forall i :: 0 <= i < |chunks| ==> 0 < |chunks[i]| <= BufferSize
    {
      chunks := [];
      if SourceXml !in files {
        return Err(FileNotFound(SourceXml)), chunks;
      }
      var instream := new FileInputStream(files[SourceXml]);
      // Opening the output stream creates or truncates out.xml.
      files := files[OutXml := []];
      var buffer := new byte[BufferSize];
      var length := instream.Read(buffer);
      while length > 0
        invariant instream.Valid() && instream.data == old(files)[SourceXml]
        invariant buffer.Length == BufferSize
        invariant length <= 0 ==> instream.pos == |instream.data|
        invariant length > 0 ==>
          length <= BufferSize && length <= instream.pos &&
          buffer[..length] == instream.data[instream.pos - length..instream.pos]
        invariant var written := if length > 0 then instream.pos - length else instream.pos;
          files == old(files)[OutXml := instream.data[..written]] && Flatten(chunks) == instream.data[..written]
        invariant forall i :: 0 <= i < |chunks| ==> 0 < |chunks[i]| <= BufferSize
        decreases |instream.data| - instream.pos + (if length > 0 then 1 else 0)
      {
        var chunk := buffer[..length];
        files := files[OutXml := files[OutXml] + chunk];
        chunks := chunks + [chunk];
        assert instream.data[..instream.pos] == instream.data[..instream.pos - length] + chunk;
        length := instream.Read(buffer);
      }
      assert instream.data[..instream.pos] == instream.data;
      return Ok(Resource(OutXml, files[OutXml])), chunks;
    }
  }
}
