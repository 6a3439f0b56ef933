/** Project-root discovery and the root choice of the filesystem manager.
    Paths are sequences of components; whether a file exists and how a path
    is canonicalised are left to the caller as functions (`present`,
    `normalize`), since both ask the operating system. */
module FileSystem {
  import opened Results
  import opened Errors

  /** A path as `std::path::Path` sees it: absolute or relative, and its
      normal components. */
  datatype Path = Path(absolute: bool, parts: seq<string>)

  /** `Path::parent`: drops the last component; a path with no components
      (`/` or the empty relative path) has no parent. */
  function Parent(p: Path): (r: Option<Path>)
    ensures r.None? <==> |p.parts| == 0
    ensures r.Some? ==> r.value.absolute == p.absolute && r.value.parts == p.parts[..|p.parts| - 1]
  {
    if |p.parts| == 0 then None else Some(Path(p.absolute, p.parts[..|p.parts| - 1]))
  }

  /** `Path::join` with a plain file name. */
  function Join(dir: Path, name: string): Path
  {
    Path(dir.absolute, dir.parts + [name])
  }

  /** The ancestor of `start` that keeps its first `n` components; `n` equal
      to the component count gives `start` itself. */
  function Ancestor(start: Path, n: nat): Path
    requires n <= |start.parts|
  {
    Path(start.absolute, start.parts[..n])
  }

  predicate IsAncestorOrSelf(dir: Path, start: Path)
  {
    dir.absolute == start.absolute && dir.parts <= start.parts
  }

  /** The marker files that identify a project root, in priority order. */
  const Markers: seq<string> := ["db.json", ".db.json", "json-echo.json"]

  /** Some marker file exists in `dir`. */
  predicate HasMarker(dir: Path, present: Path -> bool)
  {
    exists i | 0 <= i < |Markers| :: present(Join(dir, Markers[i]))
  }

  /** No ancestor of `start` keeping more than `n` components holds a
      marker. */
  predicate NoMarkerAbove(start: Path, n: int, present: Path -> bool)
  {
    forall k: nat | n < k <= |start.parts| :: !HasMarker(Ancestor(start, k), present)
  }

  /** `PathUtils::find_root`: the nearest directory, walking up from `start`
      inclusive, that holds a marker file. */
  function FindRoot(start: Path, present: Path -> bool): (r: Option<Path>)
    ensures r.Some? ==> IsAncestorOrSelf(r.value, start) && HasMarker(r.value, present)
    ensures r.Some? ==> NoMarkerAbove(start, |r.value.parts|, present)
    ensures r.None? <==> NoMarkerAbove(start, -1, present)
    decreases |start.parts|
  {
    if HasMarker(start, present) then
      assert Ancestor(start, |start.parts|) == start;
      Some(start)
    else
      match Parent(start)
      case None => None
      case Some(p) =>
        var r := FindRoot(p, present);
        assert forall k | 0 <= k <= |p.parts| :: Ancestor(p, k) == Ancestor(start, k);
        assert Ancestor(start, |start.parts|) == start;
        r
  }

  /** Which marker files a directory holds does not matter, only whether it
      holds one. */
  lemma {:induction false} FindRootIgnoresWhichMarker(start: Path, present1: Path -> bool, present2: Path -> bool)
    requires forall k | 0 <= k <= |start.parts| ::
               HasMarker(Ancestor(start, k), present1) == HasMarker(Ancestor(start, k), present2)
    ensures FindRoot(start, present1) == FindRoot(start, present2)
    decreases |start.parts|
  {
    assert Ancestor(start, |start.parts|) == start;
    if !HasMarker(start, present1) && |start.parts| > 0 {
      var p := Parent(start).value;
      assert forall k | 0 <= k <= |p.parts| :: Ancestor(p, k) == Ancestor(start, k);
      FindRootIgnoresWhichMarker(p, present1, present2);
    }
  }

  /** The error reported when discovery finds no root. */
  const RootNotFound: string := "Root directory not found"

  /** `FileSystemManager::new`: an explicit root is canonicalised; otherwise
      the root is discovered from the working directory `cwd`. */
  function NewManagerRoot(root: Option<Path>, cwd: Result<Path, IoError>, normalize: Path -> Path,
                          present: Path -> bool): (r: Result<Path, FileSystemError>)
    ensures root.Some? ==> r == Ok(normalize(root.value))
    ensures root.None? && cwd.Err? ==> r == Err(FromIo(cwd.error))
    ensures root.None? && cwd.Ok? && NoMarkerAbove(cwd.value, -1, present) ==>
              r == Err(FileSystemError.Operation(RootNotFound))
    ensures r.Ok? && root.None? ==>
              exists d :: IsAncestorOrSelf(d, cwd.value) && HasMarker(d, present)
                && NoMarkerAbove(cwd.value, |d.parts|, present) && r.value == normalize(d)
  {
    match root
    case Some(p) => Ok(normalize(p))
    case None =>
      match cwd
      case Err(e) => Err(FromIo(e))
      case Ok(dir) =>
        match FindRoot(dir, present)
        case None => Err(FileSystemError.Operation(RootNotFound))
        case Some(d) => Ok(normalize(d))
  }
}
