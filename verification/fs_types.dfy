/** Values shared by the filesystem helpers of the disk layer: results and errors,
    the oracle that answers primitive filesystem calls, the record of the calls an
    operation made, and paths seen as lists of components. */
module FsTypes {

  datatype Option<+T> = None | Some(value: T)

  datatype Result<+T, +E> = Ok(value: T) | Err(error: E)

  /** The `io::ErrorKind`s the helpers tell apart. Every other kind is `Other`,
      tagged so that two different errors stay different. */
  datatype IoError = NotFound | AlreadyExists | Other(code: int)

  /** The disk layer's error taxonomy: the two errors of the path check, and
      whatever the error mapping makes of an I/O error. */
  datatype DiskError = FileNameTooLong | FileAccessDenied | FromIo(cause: IoError)

  /** The target operating system, passed explicitly instead of `cfg!(target_os)`. */
  datatype Platform = MacOS | Windows | OtherOs

  /** The filesystem's answer to one primitive call. */
  datatype Reply = Done | Failed(error: IoError)

  /** The filesystem as an oracle: `fs(i)` answers the primitive call made at step `i`.
      Any behaviour of a concurrently mutated filesystem is some oracle. */
  type Oracle = nat -> Reply

  /** The primitive calls the helpers make, with their arguments:
      `CreateAll` is the create-all-ancestors primitive, `MakeDir` a single mkdir,
      `RenameFile` a raw rename and `Metadata` the stat behind `file_exists`. */
  datatype Call =
    | CreateAll(target: Path)
    | MakeDir(target: Path)
    | RenameFile(src: Path, dst: Path)
    | Metadata(target: Path)

  /** What an operation returned, and every primitive call it made, in order. */
  datatype Run<+E> = Run(result: Result<(), E>, calls: seq<Call>)

  function MapError(r: Result<(), IoError>, f: IoError -> DiskError): Result<(), DiskError>
  {
    match r
    case Ok(u) => Ok(u)
    case Err(e) => Err(f(e))
  }

  /* ---------------------------------------------------------------------------
     Paths
     ------------------------------------------------------------------------- */

  datatype Component = RootDir | Normal(name: string)

  /** A Unix path: whether it starts at the root, and its normal components. */
  datatype Path = Path(absolute: bool, names: seq<string>)

  /** The path with no components, whose text is empty. */
  const EmptyPath := Path(false, [])

  function ComponentAt(p: Path, i: nat): Component
    requires i < |p.names| + (if p.absolute then 1 else 0)
  {
    if p.absolute then (if i == 0 then RootDir else Normal(p.names[i - 1]))
    else Normal(p.names[i])
  }

  /** The component sequence of a path: a leading root for an absolute path, then its names. */
  function Components(p: Path): (cs: seq<Component>)
    ensures |cs| == |p.names| + (if p.absolute then 1 else 0)
  {
    seq(|p.names| + (if p.absolute then 1 else 0), i requires 0 <= i < |p.names| + (if p.absolute then 1 else 0) => ComponentAt(p, i))
  }

  /** `Path::starts_with`: the components of `prefix` are a prefix of those of `p`. */
  predicate StartsWith(p: Path, prefix: Path)
  {
    var a, b := Components(p), Components(prefix);
    |b| <= |a| && a[..|b|] == b
  }

  /** The component-prefix test in terms of the two fields: the empty path is a
      prefix of every path, and otherwise both paths agree on being absolute and
      the names of one are a prefix of the names of the other. */
  lemma StartsWithIff(p: Path, prefix: Path)
    ensures StartsWith(p, prefix)
        <==> prefix == EmptyPath || (prefix.absolute == p.absolute && prefix.names <= p.names)
  {
    var a, b := Components(p), Components(prefix);
    if prefix == EmptyPath {
      assert b == [];
    } else if prefix.absolute != p.absolute {
      if |b| <= |a| {
        if prefix.absolute {
          assert b[0] == RootDir && a[0] != RootDir;
        } else {
          assert |prefix.names| > 0;
          assert b[0] != RootDir && a[0] == RootDir;
        }
        assert a[..|b|][0] != b[0];
      }
    } else {
      var off := if p.absolute then 1 else 0;
      if prefix.names <= p.names {
        assert a[..|b|] == b;
      }
      if StartsWith(p, prefix) {
        forall i | 0 <= i < |prefix.names|
          ensures prefix.names[i] == p.names[i]
        {
          assert a[..|b|][i + off] == b[i + off];
        }
      }
    }
  }

  /** `Path::parent`: `None` for the root and for the empty path, otherwise the
      path without its last component. */
  function Parent(p: Path): (r: Option<Path>)
    ensures r.None? <==> p.names == []
    ensures r.Some? ==> r.value.absolute == p.absolute && r.value.names + [p.names[|p.names| - 1]] == p.names
  {
    if p.names == [] then None else Some(Path(p.absolute, p.names[..|p.names| - 1]))
  }

  /** The canonical text of a path, as `to_string_lossy` renders it. */
  function PathText(p: Path): string
  {
    (if p.absolute then "/" else "") + JoinNames(p.names)
  }

  function JoinNames(names: seq<string>): string
  {
    if names == [] then ""
    else if |names| == 1 then names[0]
    else JoinNames(names[..|names| - 1]) + "/" + names[|names| - 1]
  }

  /** Every name of a path appears in its text as one contiguous block. */
  lemma {:induction false} JoinNamesContains(names: seq<string>, k: nat)
    requires k < |names|
    ensures exists a: string, b: string :: JoinNames(names) == a + names[k] + b
  {
    var n := |names|;
    if n == 1 {
      assert JoinNames(names) == [] + names[k] + [];
    } else if k == n - 1 {
      assert JoinNames(names) == (JoinNames(names[..n - 1]) + "/") + names[k] + [];
    } else {
      var init := names[..n - 1];
      JoinNamesContains(init, k);
      var a: string, b: string :| JoinNames(init) == a + init[k] + b;
      assert JoinNames(names) == a + names[k] + (b + "/" + names[n - 1]);
    }
  }
}
