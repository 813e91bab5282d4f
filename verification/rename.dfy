/** The reliable renamer: `reliable_rename` creates the destination's missing
    parent through the reliable creator, then renames, retrying once; a source
    that is already gone counts as success. `rename_all` maps its error. */
module Rename {
  import opened FsTypes
  import Mkdir

  /** `file_exists`: true exactly when the metadata call succeeds; any error reads as absent. */
  function FileExists(reply: Reply): bool
  {
    reply.Done?
  }

  /** Number of raw rename calls in a trace. */
  function RenameCount(calls: seq<Call>): (n: nat)
    ensures n <= |calls|
  {
    if calls == [] then 0
    else (if calls[0].RenameFile? then 1 else 0) + RenameCount(calls[1..])
  }

  /** The count is zero exactly when no call of the trace is a rename. */
  lemma {:induction false} RenameCountZeroIff(calls: seq<Call>)
    ensures RenameCount(calls) == 0 <==> forall c :: c in calls ==> !c.RenameFile?
  {
    if calls != [] {
      RenameCountZeroIff(calls[1..]);
      assert forall c :: c in calls <==> c == calls[0] || c in calls[1..];
    }
  }

  lemma {:induction false} RenameCountAppend(xs: seq<Call>, ys: seq<Call>)
    ensures RenameCount(xs + ys) == RenameCount(xs) + RenameCount(ys)
  {
    if xs == [] {
      assert xs + ys == ys;
    } else {
      RenameCountAppend(xs[1..], ys);
      assert (xs + ys)[0] == xs[0];
      assert (xs + ys)[1..] == xs[1..] + ys;
    }
  }

  /** The first block of `reliable_rename`: when the destination has a parent that
      `file_exists` does not find, create it with the reliable creator. */
  function PrepareParent(dst: Path, base: Path, fs: Oracle, t: nat): (r: Run<IoError>)
    ensures Parent(dst).None? ==> r == Run(Ok(()), [])
    ensures Parent(dst).Some? ==> r.calls != [] && r.calls[0] == Metadata(Parent(dst).value)
    // The creator runs only when the parent was not found, and its error is returned.
    ensures Parent(dst).Some? && FileExists(fs(t)) ==> r == Run(Ok(()), [Metadata(Parent(dst).value)])
    ensures Parent(dst).Some? && !FileExists(fs(t)) ==>
              var m := Mkdir.ReliableMkdirAll(Parent(dst).value, base, fs, t + 1).run;
              r == Run(m.result, [Metadata(Parent(dst).value)] + m.calls)
    ensures RenameCount(r.calls) == 0
    ensures |r.calls| <= 5
  {
    match Parent(dst)
    case None => Run(Ok(()), [])
    case Some(parent) =>
      if FileExists(fs(t)) then Run(Ok(()), [Metadata(parent)])
      else
        var m := Mkdir.ReliableMkdirAll(parent, base, fs, t + 1).run;
        RenameCountZeroIff(m.calls);
        RenameCountAppend([Metadata(parent)], m.calls);
        Run(m.result, [Metadata(parent)] + m.calls)
  }

  /** The rename loop of `reliable_rename`: "not found" ends it successfully, any
      other first error is retried once, and a second such error is returned. */
  function RenameWithRetry(src: Path, dst: Path, fs: Oracle, t: nat): (r: Run<IoError>)
    ensures 1 <= |r.calls| <= 2 && forall c :: c in r.calls ==> c == RenameFile(src, dst)
    ensures RenameCount(r.calls) == |r.calls|
    ensures |r.calls| == 2 <==> fs(t).Failed? && fs(t).error != NotFound
    ensures r.result.Err? <==> |r.calls| == 2 && fs(t + 1).Failed? && fs(t + 1).error != NotFound
    ensures r.result.Err? ==> r.result.error == fs(t + 1).error
  {
    var mv := RenameFile(src, dst);
    match fs(t)
    case Done => Run(Ok(()), [mv])
    case Failed(e) =>
      if e == NotFound then Run(Ok(()), [mv])
      else
        match fs(t + 1)
        case Done => Run(Ok(()), [mv, mv])
        case Failed(e2) => Run(if e2 == NotFound then Ok(()) else Err(e2), [mv, mv])
  }

  /** `reliable_rename(src, dst, base)` started at oracle step `t`. */
  function ReliableRename(src: Path, dst: Path, base: Path, fs: Oracle, t: nat): (r: Run<IoError>)
    ensures |r.calls| <= 7
    // A failure to create the parent is returned, and then nothing is renamed.
    ensures var pre := PrepareParent(dst, base, fs, t);
            pre.result.Err? ==> r == pre
    // Otherwise the renames follow the parent's preparation.
    ensures var pre := PrepareParent(dst, base, fs, t);
            var mv := RenameWithRetry(src, dst, fs, t + |pre.calls|);
            pre.result.Ok? ==> r == Run(mv.result, pre.calls + mv.calls)
  {
    var pre := PrepareParent(dst, base, fs, t);
    if pre.result.Err? then pre
    else
      var mv := RenameWithRetry(src, dst, fs, t + |pre.calls|);
      Run(mv.result, pre.calls + mv.calls)
  }

  /** Appending renames of `src` to `dst` to a rename-free trace. */
  lemma RenamesFollowPreparation(pre: seq<Call>, mv: seq<Call>, src: Path, dst: Path)
    requires RenameCount(pre) == 0
    requires forall c :: c in mv ==> c == RenameFile(src, dst)
    ensures RenameCount(pre + mv) == RenameCount(mv)
    ensures forall c :: c in pre + mv && c.RenameFile? ==> c == RenameFile(src, dst)
  {
    RenameCountAppend(pre, mv);
    RenameCountZeroIff(pre);
    assert forall c :: c in pre + mv ==> c in pre || c in mv;
  }

  /** At most two raw renames, each of `src` to `dst`; there is one exactly when
      the parent's preparation succeeded. */
  lemma RenamesOnlySourceToDestination(src: Path, dst: Path, base: Path, fs: Oracle, t: nat)
    ensures var r := ReliableRename(src, dst, base, fs, t);
            RenameCount(r.calls) <= 2
            && (forall c :: c in r.calls && c.RenameFile? ==> c == RenameFile(src, dst))
            && (RenameCount(r.calls) >= 1 <==> PrepareParent(dst, base, fs, t).result.Ok?)
  {
    var pre := PrepareParent(dst, base, fs, t);
    if pre.result.Ok? {
      var mv := RenameWithRetry(src, dst, fs, t + |pre.calls|);
      assert ReliableRename(src, dst, base, fs, t).calls == pre.calls + mv.calls;
      RenamesFollowPreparation(pre.calls, mv.calls, src, dst);
    } else {
      assert ReliableRename(src, dst, base, fs, t).calls == pre.calls;
      RenameCountZeroIff(pre.calls);
    }
  }

  /** `rename_all(src, dst, base)`: `reliable_rename` with its error passed
      through the error mapping. */
  function RenameAll(src: Path, dst: Path, base: Path, toFileError: IoError -> DiskError,
                     fs: Oracle, t: nat): (r: Run<DiskError>)
    ensures r.calls == ReliableRename(src, dst, base, fs, t).calls
    ensures r.result.Ok? <==> ReliableRename(src, dst, base, fs, t).result.Ok?
    ensures r.result.Err? ==> r.result.error == toFileError(ReliableRename(src, dst, base, fs, t).result.error)
  {
    var m := ReliableRename(src, dst, base, fs, t);
    Run(MapError(m.result, toFileError), m.calls)
  }

  /* ---------------------------------------------------------------------------
     Properties
     ------------------------------------------------------------------------- */

  /** Idempotence: when the source is already gone (a previous rename succeeded),
      the rename reports success once the parent is in place. */
  lemma MovedSourceSucceeds(src: Path, dst: Path, base: Path, fs: Oracle, t: nat)
    requires PrepareParent(dst, base, fs, t).result.Ok?
    requires fs(t + |PrepareParent(dst, base, fs, t).calls|) == Failed(NotFound)
    ensures ReliableRename(src, dst, base, fs, t).result == Ok(())
    ensures RenameCount(ReliableRename(src, dst, base, fs, t).calls) == 1
  {
    var pre := PrepareParent(dst, base, fs, t);
    var mv := RenameWithRetry(src, dst, fs, t + |pre.calls|);
    assert mv == Run(Ok(()), [RenameFile(src, dst)]);
    assert ReliableRename(src, dst, base, fs, t) == Run(Ok(()), pre.calls + mv.calls);
    RenamesFollowPreparation(pre.calls, mv.calls, src, dst);
  }

  /** The error a rename reports is never "not found" and always comes from the
      second of two attempts, each answered by some other error. */
  lemma RenameErrorAfterTwoFailures(src: Path, dst: Path, base: Path, fs: Oracle, t: nat)
    requires PrepareParent(dst, base, fs, t).result.Ok?
    requires ReliableRename(src, dst, base, fs, t).result.Err?
    ensures var pre := PrepareParent(dst, base, fs, t);
            var n := |pre.calls|;
            var e := ReliableRename(src, dst, base, fs, t).result.error;
            && RenameCount(ReliableRename(src, dst, base, fs, t).calls) == 2
            && e != NotFound
            && fs(t + n).Failed? && fs(t + n).error != NotFound
            && fs(t + n + 1) == Failed(e)
  {
    var pre := PrepareParent(dst, base, fs, t);
    var mv := RenameWithRetry(src, dst, fs, t + |pre.calls|);
    var r := ReliableRename(src, dst, base, fs, t);
    assert r == Run(mv.result, pre.calls + mv.calls);
    assert mv.result.Err? && |mv.calls| == 2;
    RenamesFollowPreparation(pre.calls, mv.calls, src, dst);
  }

  /** The parent of the destination is created only when it has one and
      `file_exists` reports it missing. */
  lemma CreatesParentOnlyWhenMissing(src: Path, dst: Path, base: Path, fs: Oracle, t: nat)
    ensures (exists c :: c in ReliableRename(src, dst, base, fs, t).calls && (c.CreateAll? || c.MakeDir?))
            ==> Parent(dst).Some? && !FileExists(fs(t))
  {
  }
}
