/** The reliable directory creator: `os_mkdir_all` (one creation attempt below a
    boundary), `reliable_mkdir_all` (one retry after a vanished ancestor) and the
    public wrapper `make_dir_all` (path check first). The filesystem answers every
    primitive call through an oracle, and every operation reports the calls it made. */
module Mkdir {
  import opened FsTypes
  import PathCheck

  /** The early return of `os_mkdir_all`: the boundary is non-empty and
      `base_dir.starts_with(dir_path)`, i.e. the directory is the boundary or one
      of its ancestors. */
  function Guarded(dir: Path, base: Path): (g: bool)
    // In terms of the two fields: the boundary is non-empty and the directory is
    // the empty path, or has the boundary's kind and a prefix of its names.
    ensures g <==> base != EmptyPath
                   && (dir == EmptyPath || (dir.absolute == base.absolute && dir.names <= base.names))
  {
    StartsWithIff(base, dir);
    base != EmptyPath && StartsWith(base, dir)
  }

  /** The outcome of a creation primitive, with "already exists" counted as success. */
  function CreationOutcome(reply: Reply): (r: Result<(), IoError>)
    ensures r.Err? <==> reply.Failed? && reply.error != AlreadyExists
    ensures r.Err? ==> r.error == reply.error
  {
    match reply
    case Done => Ok(())
    case Failed(e) => if e == AlreadyExists then Ok(()) else Err(e)
  }

  /** `os_mkdir_all(dir, base)` started at oracle step `t`. */
  function OsMkdirAll(dir: Path, base: Path, fs: Oracle, t: nat): (r: Run<IoError>)
    // Inside the boundary nothing is done.
    ensures Guarded(dir, base) ==> r == Run(Ok(()), [])
    // Otherwise one or two calls: the parent's creation, then the directory's own.
    ensures !Guarded(dir, base) ==> 1 <= |r.calls| <= 2
    ensures forall c :: c in r.calls ==>
              c == MakeDir(dir) || (Parent(dir).Some? && c == CreateAll(Parent(dir).value))
    ensures |r.calls| == 2 ==>
              Parent(dir).Some? && r.calls == [CreateAll(Parent(dir).value), MakeDir(dir)] && fs(t) == Done
    // With a parent, its creation is always the first call; the directory itself
    // is created whenever there is no parent or the parent's creation succeeded.
    ensures !Guarded(dir, base) && Parent(dir).Some? ==> r.calls[0] == CreateAll(Parent(dir).value)
    ensures !Guarded(dir, base) && (Parent(dir).None? || fs(t) == Done) ==> MakeDir(dir) in r.calls
    // "Already exists" from the parent's creation ends the operation successfully.
    ensures (!Guarded(dir, base) && Parent(dir).Some? && fs(t) == Failed(AlreadyExists))
              ==> r == Run(Ok(()), [CreateAll(Parent(dir).value)])
    // The result is the last call's outcome: any error other than "already exists", unchanged.
    ensures r.result.Err? <==>
              r.calls != [] && fs(t + |r.calls| - 1).Failed? && fs(t + |r.calls| - 1).error != AlreadyExists
    ensures r.result.Err? ==> fs(t + |r.calls| - 1) == Failed(r.result.error)
  {
    if Guarded(dir, base) then Run(Ok(()), [])
    else
      match Parent(dir)
      case Some(parent) =>
        (match fs(t)
         case Failed(e) => Run(CreationOutcome(fs(t)), [CreateAll(parent)])
         case Done => Run(CreationOutcome(fs(t + 1)), [CreateAll(parent), MakeDir(dir)]))
      case None => Run(CreationOutcome(fs(t)), [MakeDir(dir)])
  }

  /** The boundary `reliable_mkdir_all` retries with: its parent, when it has one
      whose first component exists and is not the root; otherwise unchanged. */
  function ClimbedBase(base: Path): (up: Path)
    // Either the boundary itself or its parent; the kind of path never changes.
    ensures up == base || (Parent(base).Some? && up == Parent(base).value)
    ensures up.absolute == base.absolute
  {
    match Parent(base)
    case Some(up) =>
      var cs := Components(up);
      if cs != [] && cs[0] != RootDir then up else base
    case None => base
  }

  /** The boundary moves only for relative boundaries of two or more components:
      an absolute boundary never changes. */
  lemma ClimbedBaseIff(base: Path)
    ensures ClimbedBase(base) != base <==> !base.absolute && |base.names| >= 2
    ensures ClimbedBase(base) != base ==> ClimbedBase(base) == Parent(base).value
  {
  }

  /** Moving the boundary up can only shrink the set of guarded directories, so a
      directory the boundary did not guard stays unguarded after the climb. */
  lemma ClimbKeepsGuardOff(dir: Path, base: Path)
    requires !Guarded(dir, base)
    ensures !Guarded(dir, ClimbedBase(base))
  {
  }

  /** The record of a `reliable_mkdir_all` run: its result and calls, and the
      boundary used by each `os_mkdir_all` attempt. */
  datatype Attempts = Attempts(run: Run<IoError>, boundaries: seq<Path>)

  /** `reliable_mkdir_all(path, base)` started at oracle step `t`. */
  function ReliableMkdirAll(path: Path, base: Path, fs: Oracle, t: nat): (r: Attempts)
    // One attempt, or two; the first with the caller's boundary.
    ensures 1 <= |r.boundaries| <= 2 && r.boundaries[0] == base
    // A second attempt happens exactly when the first one reports "not found" ...
    ensures var first := OsMkdirAll(path, base, fs, t);
            (|r.boundaries| == 2 <==> first.result == Err(NotFound))
            && (|r.boundaries| == 1 ==> r.run == first)
    // ... and it behaves as a plain retry with the caller's boundary: the climb
    // never changes what the second attempt does.
    ensures var first := OsMkdirAll(path, base, fs, t);
            |r.boundaries| == 2 ==>
              var second := OsMkdirAll(path, base, fs, t + |first.calls|);
              r.run == Run(second.result, first.calls + second.calls)
    ensures |r.boundaries| == 2 ==> r.boundaries[1] == ClimbedBase(base)
    ensures |r.run.calls| <= 4
    // Only the directory and its parent are ever targeted, and the directory only
    // when it is not the boundary or one of its ancestors.
    ensures forall c :: c in r.run.calls ==>
              c == MakeDir(path) || (Parent(path).Some? && c == CreateAll(Parent(path).value))
    ensures MakeDir(path) in r.run.calls ==> !Guarded(path, base)
  {
    var first := OsMkdirAll(path, base, fs, t);
    if first.result == Err(NotFound) then
      var up := ClimbedBase(base);
      ClimbKeepsGuardOff(path, base);
      var second := OsMkdirAll(path, up, fs, t + |first.calls|);
      SameOutsideBoundary(path, up, base, fs, t + |first.calls|);
      TargetsOfBoth(first.calls, second.calls, path);
      Attempts(Run(second.result, first.calls + second.calls), [base, up])
    else
      Attempts(first, [base])
  }

  /** "Already exists" is never reported; every error is the last call's, unchanged. */
  lemma ReliableMkdirAllReportsLastError(path: Path, base: Path, fs: Oracle, t: nat)
    ensures var r := ReliableMkdirAll(path, base, fs, t).run;
            r.result.Err? ==> r.result.error != AlreadyExists
    ensures var r := ReliableMkdirAll(path, base, fs, t).run;
            r.result.Err? ==> r.calls != [] && fs(t + |r.calls| - 1) == Failed(r.result.error)
  {
  }

  /** Outside the boundary, `os_mkdir_all` does not look at the boundary at all. */
  lemma SameOutsideBoundary(dir: Path, b1: Path, b2: Path, fs: Oracle, t: nat)
    requires !Guarded(dir, b1) && !Guarded(dir, b2)
    ensures OsMkdirAll(dir, b1, fs, t) == OsMkdirAll(dir, b2, fs, t)
  {
  }

  /** Two traces that target only `path` and its parent joined together. */
  lemma TargetsOfBoth(xs: seq<Call>, ys: seq<Call>, path: Path)
    requires forall c :: c in xs ==> c == MakeDir(path) || (Parent(path).Some? && c == CreateAll(Parent(path).value))
    requires forall c :: c in ys ==> c == MakeDir(path) || (Parent(path).Some? && c == CreateAll(Parent(path).value))
    ensures forall c :: c in xs + ys ==> c == MakeDir(path) || (Parent(path).Some? && c == CreateAll(Parent(path).value))
    ensures MakeDir(path) in xs + ys ==> MakeDir(path) in xs || MakeDir(path) in ys
  {
  }

  /** `make_dir_all(path, base)`: the path check on the path's text, then
      `reliable_mkdir_all` with its error passed through the error mapping. */
  function MakeDirAll(path: Path, base: Path, platform: Platform,
                      toFileError: IoError -> DiskError, fs: Oracle, t: nat): (r: Run<DiskError>)
    // A path that fails the check is rejected before any filesystem call.
    ensures PathCheck.CheckPathLength(PathText(path), platform).Err? ==>
              r == Run(PathCheck.CheckPathLength(PathText(path), platform), [])
    ensures PathCheck.CheckPathLength(PathText(path), platform).Ok? ==>
              var m := ReliableMkdirAll(path, base, fs, t).run;
              r.calls == m.calls
              && (r.result.Ok? <==> m.result.Ok?)
              && (r.result.Err? ==> r.result.error == toFileError(m.result.error))
  {
    match PathCheck.CheckPathLength(PathText(path), platform)
    case Err(e) => Run(Err(e), [])
    case Ok(_) =>
      var m := ReliableMkdirAll(path, base, fs, t).run;
      Run(MapError(m.result, toFileError), m.calls)
  }

  /* ---------------------------------------------------------------------------
     Properties
     ------------------------------------------------------------------------- */

  /** Idempotence: on a filesystem where every creation succeeds or finds its
      target already there (as on a second call with the same arguments), the
      creator succeeds at the first attempt. */
  lemma SettledTreeSucceeds(path: Path, base: Path, fs: Oracle, t: nat)
    requires forall i :: t <= i ==> fs(i) == Done || fs(i) == Failed(AlreadyExists)
    ensures ReliableMkdirAll(path, base, fs, t).run.result == Ok(())
    ensures |ReliableMkdirAll(path, base, fs, t).boundaries| == 1
  {
  }

  /** One vanished ancestor is absorbed: a "not found" on the first attempt
      followed by successful creations ends in success. */
  lemma NotFoundRaceAbsorbedOnce(path: Path, base: Path, fs: Oracle, t: nat)
    requires OsMkdirAll(path, base, fs, t).result == Err(NotFound)
    requires forall i :: t + |OsMkdirAll(path, base, fs, t).calls| <= i ==> fs(i) == Done
    ensures ReliableMkdirAll(path, base, fs, t).run.result == Ok(())
  {
  }

  /** A second "not found" is not absorbed: it is returned. */
  lemma SecondNotFoundReturned(path: Path, base: Path, fs: Oracle, t: nat)
    requires !Guarded(path, base)
    requires forall i :: t <= i ==> fs(i) == Failed(NotFound)
    ensures ReliableMkdirAll(path, base, fs, t).run.result == Err(NotFound)
    ensures |ReliableMkdirAll(path, base, fs, t).boundaries| == 2
  {
  }

  /** The only boundary test is on the directory itself: the parent's creation
      may target the boundary itself, so ancestors created by that call are not
      kept below the boundary. */
  lemma ParentCreationMayTargetBoundary(base: Path, name: string, fs: Oracle, t: nat)
    ensures OsMkdirAll(Path(base.absolute, base.names + [name]), base, fs, t).calls[0] == CreateAll(base)
  {
  }

  /** A path with a name longer than the segment limit (and no separator in it)
      makes `make_dir_all` fail with FileNameTooLong without touching the disk. */
  lemma OverlongNameMakesNoCall(path: Path, base: Path, platform: Platform,
                                toFileError: IoError -> DiskError, fs: Oracle, t: nat, k: nat)
    requires k < |path.names| && |path.names[k]| > PathCheck.NameMax
    requires forall i :: 0 <= i < |path.names[k]| ==> path.names[k][i] != '/' && path.names[k][i] != '\\'
    ensures MakeDirAll(path, base, platform, toFileError, fs, t) == Run(Err(FileNameTooLong), [])
  {
    JoinNamesContains(path.names, k);
    var a: string, b: string :| JoinNames(path.names) == a + path.names[k] + b;
    var prefix := if path.absolute then "/" else "";
    assert PathText(path) == (prefix + a) + path.names[k] + b;
    PathCheck.LongBlockRejected(prefix + a, path.names[k], b, platform);
  }
}
