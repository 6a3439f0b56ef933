/** The error taxonomy of the core crate and its total conversions from the
    standard library's I/O errors and serde_json's errors. Paths are carried
    as their display text. */
module Errors {
  import opened Strings

  /** The `io::ErrorKind`s the conversion distinguishes; every other kind is
      `OtherKind`, named by its debug text. */
  datatype IoErrorKind = NotFound | PermissionDenied | OtherKind(name: string)

  /** An `io::Error`: its kind and its display text. */
  datatype IoError = IoError(kind: IoErrorKind, message: string)

  /** A `serde_json::Error`, known by its display text. */
  datatype SerdeError = SerdeError(message: string)

  datatype FileSystemError =
    | NotFound(path: string)
    | PermissionDenied(path: string)
    | Io(path: string, message: string)
    | NotADirectory(path: string)
    | NotAFile(path: string)
    | Utf8Decode(path: string, message: string)
    | Validation(path: string, reason: string)
    | Operation(message: string)

  datatype Error =
    | FileSystem(cause: FileSystemError)
    | Operation(message: string)

  /** The placeholder path both conversions use, since neither source error
      knows which path failed. */
  const UnknownPath: string := "<unknown>"

  /** `impl From<io::Error> for FileSystemError`. */
  function FromIo(e: IoError): (r: FileSystemError)
    ensures r.NotFound? <==> e.kind.NotFound?
    ensures r.PermissionDenied? <==> e.kind.PermissionDenied?
    ensures r.Io? <==> e.kind.OtherKind?
    ensures r.Io? ==> r.message == e.message
    ensures r.path == UnknownPath
  {
    match e.kind
    case NotFound => FileSystemError.NotFound(UnknownPath)
    case PermissionDenied => FileSystemError.PermissionDenied(UnknownPath)
    case OtherKind(_) => Io(UnknownPath, e.message)
  }

  /** `impl From<serde_json::Error> for FileSystemError`: every parse
      failure is reported as a decoding failure. */
  function FromSerde(e: SerdeError): (r: FileSystemError)
    ensures r.Utf8Decode? && r.path == UnknownPath && r.message == e.message
  {
    Utf8Decode(UnknownPath, e.message)
  }

  /** `Error::operation`. */
  function ErrorOperation(message: string): (r: Error)
    ensures r.Operation? && r.message == message
  {
    Error.Operation(message)
  }

  /** The `#[from]` conversion into `Error`. */
  function FromFileSystem(e: FileSystemError): (r: Error)
    ensures r.FileSystem? && r.cause == e
  {
    FileSystem(e)
  }

  /** `impl AsRef<str> for Error`: the variant's name. */
  function AsRef(e: Error): (r: string)
    ensures r == "Error::FileSystem" <==> e.FileSystem?
    ensures r == "Error::Operation" <==> e.Operation?
  {
    match e
    case FileSystem(_) => "Error::FileSystem"
    case Operation(_) => "Error::Operation"
  }

  /** The `Display` text of a filesystem error. */
  function Describe(e: FileSystemError): string
  {
    match e
    case NotFound(p) => "Path not found: " + p
    case PermissionDenied(p) => "Permission denied for path: " + p
    case Io(p, m) => "I/O error accessing path '" + p + "': " + m
    case NotADirectory(p) => "Expected a directory but found a file: " + p
    case NotAFile(p) => "Expected a file but found a directory: " + p
    case Utf8Decode(p, m) => "Failed to decode UTF-8 content in file: " + p + " - " + m
    case Validation(p, r) => "Path validation failed for '" + p + "': " + r
    case Operation(m) => "Operation failed: " + m
  }

  /** The `Display` text of an application error. */
  function DescribeError(e: Error): string
  {
    match e
    case FileSystem(_) => "FileSystem execution error"
    case Operation(m) => "Operation error: " + m
  }

  lemma SuffixOccurs(s: string, t: string)
    ensures Contains(s + t, t)
  {
    assert OccursAt(s + t, t, |s|);
  }

  lemma InfixOccurs(s: string, t: string, u: string, v: string)
    ensures Contains(s + t + u + v, t)
  {
    assert (s + t + u + v)[|s|..|s| + |t|] == t;
    assert OccursAt(s + t + u + v, t, |s|);
  }

  /** Every filesystem error's text names the path it concerns, and an
      operation error's text carries its message. */
  lemma DescribeNamesDetail(e: FileSystemError)
    ensures !e.Operation? ==> Contains(Describe(e), e.path)
    ensures e.Operation? ==> Contains(Describe(e), e.message)
    ensures e.Io? || e.Utf8Decode? ==> Contains(Describe(e), e.message)
  {
    match e
    case NotFound(p) => SuffixOccurs("Path not found: ", p);
    case PermissionDenied(p) => SuffixOccurs("Permission denied for path: ", p);
    case Io(p, m) =>
      InfixOccurs("I/O error accessing path '", p, "': ", m);
      SuffixOccurs("I/O error accessing path '" + p + "': ", m);
    case NotADirectory(p) => SuffixOccurs("Expected a directory but found a file: ", p);
    case NotAFile(p) => SuffixOccurs("Expected a file but found a directory: ", p);
    case Utf8Decode(p, m) =>
      InfixOccurs("Failed to decode UTF-8 content in file: ", p, " - ", m);
      SuffixOccurs("Failed to decode UTF-8 content in file: " + p + " - ", m);
    case Validation(p, r) => InfixOccurs("Path validation failed for '", p, "': ", r);
    case Operation(m) => SuffixOccurs("Operation failed: ", m);
  }
}
