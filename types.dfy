/** Values shared by the file store and the upload controller. */
module Types {

  /** One byte of file content. */
  newtype byte = x: int | 0 <= x < 256

  datatype Option<+T> = None | Some(value: T)

  /** An operation's outcome: a value, or the exception it throws. */
  datatype Result<+T, +E> = Ok(value: T) | Err(error: E)

  /** The exceptions the store and controller throw, each with what its message names. */
  datatype Failure =
    | InvalidPathSequence(fileName: string)  // FileStorageException from storeFile
    | FileNotFound(fileName: string)         // MyFileNotFoundException from the two loads
    | WrongFileTypes                         // a two-file batch without one PDF and one XML
    | LessThanTwoFiles
    | MoreThanTwoFiles

  /** The message text each exception carries. */
  function Message(f: Failure): string
  {
    match f
    case InvalidPathSequence(name) => "Sorry! Filename contains invalid path sequence " + name
    case FileNotFound(name) => "File not found " + name
    case WrongFileTypes => "File extensions should be of type xml and pdf only"
    case LessThanTwoFiles => "Less than 2 files uploaded"
    case MoreThanTwoFiles => "More than 2 files uploaded"
  }

  /** An uploaded part: its original file name, declared content type and bytes. */
  datatype MultipartFile = MultipartFile(originalFilename: string, contentType: string, content: seq<byte>)
  {
    /** The upload's size in bytes. */
    function Size(): nat { |content| }
  }

  /** A readable handle on a stored file: its name and the bytes it holds. */
  datatype Resource = Resource(fileName: string, content: seq<byte>)
}
