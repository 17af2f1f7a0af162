/**
 * backend/role_copier.py: copying one role's folder over another's
 * (delete the target, then copytree), the batch over many targets with its
 * bookkeeping and progress calls, and the pre-check `validate_copy`.
 */
module Copier {
  import opened Wrappers
  import opened Paths
  import opened FsTree
  import opened Models

  /** The `message` of a `copy_role` result. */
  datatype Message =
    | CopySucceeded                // "copy succeeded"
    | SourceNotFound(path: string) // "source path does not exist: <path>"
    | CopyError(error: OsError)    // "copy failed: <exception>"

  /** `{'success': ..., 'message': ...}` as `copy_role` returns it. */
  datatype CopyResult = CopyResult(success: bool, message: Message)

  /** The disk after one `copy_role`, and what it returned. */
  datatype Copy = Copy(root: Node, result: CopyResult)

  /**
   * `copy_role(source, target)`: a missing source is reported and nothing is
   * touched; otherwise the target is removed if present and the source copied
   * to it, and any exception on the way becomes a failure.
   */
  function CopyEffect(n: Node, source: RoleInfo, target: RoleInfo, now: int): Copy {
    var src := Parts(source.path);
    var dst := Parts(target.path);
    if Lookup(n, src).None? then Copy(n, CopyResult(false, SourceNotFound(Render(src))))
    else
      var step := ReplaceTree(n, src, dst, now);
      if step.error.None? then Copy(step.root, CopyResult(true, CopySucceeded))
      else Copy(step.root, CopyResult(false, CopyError(step.error.value)))
  }

  /** A missing source fails and leaves the disk as it was. */
  lemma CopyMissingSource(n: Node, source: RoleInfo, target: RoleInfo, now: int)
    requires Lookup(n, Parts(source.path)).None?
    ensures !CopyEffect(n, source, target, now).result.success
    ensures CopyEffect(n, source, target, now).root == n
  {
  }

  /**
   * With disjoint paths on a well-formed disk, the copy succeeds exactly when
   * the source is a directory and the target can be written; on success the
   * target holds the source's tree and the source is unchanged; whatever the
   * outcome, nothing outside the target changes.
   */
  lemma CopyDisjoint(n: Node, source: RoleInfo, target: RoleInfo, now: int)
    requires WellFormed(n) && Disjoint(Parts(source.path), Parts(target.path))
    ensures var c := CopyEffect(n, source, target, now);
      c.result.success <==> IsDirAt(n, Parts(source.path)) && Writable(n, Parts(target.path))
    ensures var c := CopyEffect(n, source, target, now);
      c.result.success ==>
        Lookup(c.root, Parts(target.path)) == Lookup(n, Parts(source.path)) &&
        Lookup(c.root, Parts(source.path)) == Lookup(n, Parts(source.path))
  {
    var src, dst := Parts(source.path), Parts(target.path);
    ReplaceTreeOk(n, src, dst, now);
    if ReplaceTree(n, src, dst, now).error == None {
      ReplaceTreeCopies(n, src, dst, now);
    }
  }

  lemma CopyFrame(n: Node, source: RoleInfo, target: RoleInfo, now: int, q: Path)
    requires Disjoint(Parts(target.path), q)
    ensures Lookup(CopyEffect(n, source, target, now).root, q) == Lookup(n, q)
  {
    ReplaceTreeFrame(n, Parts(source.path), Parts(target.path), now, q);
  }

  /**
   * `copy_role` does not refuse a role copied onto itself: the target, which is
   * the source, is deleted first, the copy then finds no source and fails, and
   * the role's folder is gone.
   */
  lemma CopyOntoItself(n: Node, r: RoleInfo, now: int)
    requires WellFormed(n) && IsDirAt(n, Parts(r.path)) && Parts(r.path) != []
    ensures !CopyEffect(n, r, r, now).result.success
    ensures Lookup(CopyEffect(n, r, r, now).root, Parts(r.path)) == None
  {
    var p := Parts(r.path);
    RmTreeOk(n, p);
    RmTreeBelow(n, p, p);
    ReplaceTreeLosesTarget(n, p, p, now);
  }

  lemma CopyWellFormed(n: Node, source: RoleInfo, target: RoleInfo, now: int)
    requires WellFormed(n)
    ensures WellFormed(CopyEffect(n, source, target, now).root)
    ensures n.Dir? ==> CopyEffect(n, source, target, now).root.Dir?
  {
    ReplaceTreeWellFormed(n, Parts(source.path), Parts(target.path), now);
  }

  // ---------------------------------------------------------------------
  // copy_to_multiple

  /** One entry of the `failed` list: `{'role': str(target), 'error': message}`. */
  datatype Failure = Failure(role: string, error: Message)

  datatype BatchResult = BatchResult(successCount: nat, failed: seq<Failure>)

  /** The disk after copying to each target in turn, and each copy's result. */
  datatype Run = Run(root: Node, results: seq<CopyResult>)

  function Batch(n: Node, source: RoleInfo, targets: seq<RoleInfo>, now: int): (run: Run)
    ensures |run.results| == |targets|
  {
    if targets == [] then Run(n, [])
    else
      var prev := Batch(n, source, targets[..|targets| - 1], now);
      var c := CopyEffect(prev.root, source, targets[|targets| - 1], now);
      Run(c.root, prev.results + [c.result])
  }

  /**
   * A failure never stops the batch: target `i` is attempted, on the disk the
   * first `i` copies left, and its own result is recorded at position `i`.
   */
  lemma {:induction false} BatchSteps(n: Node, source: RoleInfo, targets: seq<RoleInfo>, now: int, i: nat)
    requires i < |targets|
    ensures Batch(n, source, targets, now).results[i] ==
      CopyEffect(Batch(n, source, targets[..i], now).root, source, targets[i], now).result
    ensures Batch(n, source, targets[..i + 1], now).results[..i] == Batch(n, source, targets[..i], now).results
    decreases |targets|
  {
    var k := |targets| - 1;
    assert targets[..i + 1][..i] == targets[..i];
    if i < k {
      BatchSteps(n, source, targets[..k], now, i);
      assert targets[..k][..i] == targets[..i] && targets[..k][i] == targets[i];
      assert targets[..k][..i + 1] == targets[..i + 1];
    } else {
      assert targets[..k] == targets[..i];
    }
  }

  /** The bookkeeping of the loop: count the successes, list the failures in order. */
  function Summarize(targets: seq<RoleInfo>, results: seq<CopyResult>): BatchResult
    requires |results| == |targets|
  {
    if targets == [] then BatchResult(0, [])
    else
      var prev := Summarize(targets[..|targets| - 1], results[..|targets| - 1]);
      var r := results[|targets| - 1];
      if r.success then BatchResult(prev.successCount + 1, prev.failed)
      else BatchResult(prev.successCount, prev.failed + [Failure(targets[|targets| - 1].Display(), r.message)])
  }

  /** Reference definitions: how many copies succeeded, and the failing targets in input order. */
  function Successes(results: seq<CopyResult>): nat {
    if results == [] then 0 else (if results[0].success then 1 else 0) + Successes(results[1..])
  }

  function Failures(targets: seq<RoleInfo>, results: seq<CopyResult>): seq<Failure>
    requires |results| == |targets|
  {
    if targets == [] then []
    else
      (if results[0].success then [] else [Failure(targets[0].Display(), results[0].message)]) +
      Failures(targets[1..], results[1..])
  }

  lemma {:induction false} SuccessesSnoc(results: seq<CopyResult>, r: CopyResult)
    ensures Successes(results + [r]) == Successes(results) + (if r.success then 1 else 0)
    decreases |results|
  {
    if results == [] {
      assert results + [r] == [r];
    } else {
      assert (results + [r])[1..] == results[1..] + [r];
      SuccessesSnoc(results[1..], r);
    }
  }

  lemma {:induction false} FailuresSnoc(targets: seq<RoleInfo>, results: seq<CopyResult>, t: RoleInfo, r: CopyResult)
    requires |results| == |targets|
    ensures Failures(targets + [t], results + [r]) ==
      Failures(targets, results) + (if r.success then [] else [Failure(t.Display(), r.message)])
    decreases |targets|
  {
    if targets == [] {
      assert targets + [t] == [t] && results + [r] == [r];
    } else {
      assert (targets + [t])[1..] == targets[1..] + [t];
      assert (results + [r])[1..] == results[1..] + [r];
      FailuresSnoc(targets[1..], results[1..], t, r);
    }
  }

  /** The loop's bookkeeping is the reference count and the reference failure list. */
  lemma {:induction false} SummarizeIsReference(targets: seq<RoleInfo>, results: seq<CopyResult>)
    requires |results| == |targets|
    ensures Summarize(targets, results) == BatchResult(Successes(results), Failures(targets, results))
    decreases |targets|
  {
    if targets != [] {
      var k := |targets| - 1;
      SummarizeIsReference(targets[..k], results[..k]);
      assert targets == targets[..k] + [targets[k]] && results == results[..k] + [results[k]];
      SuccessesSnoc(results[..k], results[k]);
      FailuresSnoc(targets[..k], results[..k], targets[k], results[k]);
    }
  }

  /** Every target ends up counted as a success or listed as a failure: `success_count + len(failed) == len(targets)`. */
  lemma {:induction false} SummarizeCounts(targets: seq<RoleInfo>, results: seq<CopyResult>)
    requires |results| == |targets|
    ensures Summarize(targets, results).successCount + |Summarize(targets, results).failed| == |targets|
    decreases |targets|
  {
    if targets != [] {
      SummarizeCounts(targets[..|targets| - 1], results[..|targets| - 1]);
    }
  }

  /** A target path disjoint from every target path is untouched by the batch (so is the source, when it is). */
  lemma {:induction false} BatchFrame(n: Node, source: RoleInfo, targets: seq<RoleInfo>, now: int, q: Path)
    requires forall i :: 0 <= i < |targets| ==> Disjoint(Parts(targets[i].path), q)
    ensures Lookup(Batch(n, source, targets, now).root, q) == Lookup(n, q)
    decreases |targets|
  {
    if targets != [] {
      var k := |targets| - 1;
      BatchFrame(n, source, targets[..k], now, q);
      CopyFrame(Batch(n, source, targets[..k], now).root, source, targets[k], now, q);
    }
  }

  /** Target paths that are pairwise disjoint and disjoint from the source's. */
  predicate Separate(source: RoleInfo, targets: seq<RoleInfo>) {
    (forall i :: 0 <= i < |targets| ==> Disjoint(Parts(source.path), Parts(targets[i].path))) &&
    (forall i, j :: 0 <= i < j < |targets| ==> Disjoint(Parts(targets[i].path), Parts(targets[j].path)))
  }

  /**
   * With separate paths on a well-formed disk, each target whose copy reported
   * success holds the source's original tree once the whole batch is done.
   */
  lemma {:induction false} BatchCopies(n: Node, source: RoleInfo, targets: seq<RoleInfo>, now: int)
    requires WellFormed(n) && Separate(source, targets)
    ensures WellFormed(Batch(n, source, targets, now).root)
    ensures forall i :: 0 <= i < |targets| && Batch(n, source, targets, now).results[i].success ==>
      Lookup(Batch(n, source, targets, now).root, Parts(targets[i].path)) == Lookup(n, Parts(source.path))
    decreases |targets|
  {
    if targets != [] {
      var k := |targets| - 1;
      var prefix := targets[..k];
      assert Separate(source, prefix);
      BatchCopies(n, source, prefix, now);
      var prev := Batch(n, source, prefix, now);
      var m := prev.root;
      BatchFrame(n, source, prefix, now, Parts(source.path));
      CopyWellFormed(m, source, targets[k], now);
      CopyDisjoint(m, source, targets[k], now);
      var c := CopyEffect(m, source, targets[k], now);
      var run := Batch(n, source, targets, now);
      assert run == Run(c.root, prev.results + [c.result]);
      forall i | 0 <= i < |targets| && run.results[i].success
        ensures Lookup(run.root, Parts(targets[i].path)) == Lookup(n, Parts(source.path))
      {
        var t := Parts(targets[i].path);
        if i < k {
          assert prev.results[i].success && prefix[i] == targets[i];
          assert Lookup(m, t) == Lookup(n, Parts(source.path));
          assert Disjoint(Parts(targets[k].path), t);
          CopyFrame(m, source, targets[k], now, t);
          assert Lookup(c.root, t) == Lookup(m, t);
        } else {
          assert c.result.success && i == k;
        }
      }
    }
  }

  /** The call `progress_callback(current, total, message)`. */
  datatype Note = CopyingTo(role: string) | CopyDone
  datatype Progress = Progress(current: nat, total: nat, note: Note)

  /** The per-target calls made before copying to each of `targets`. */
  function Announcements(targets: seq<RoleInfo>, total: nat): (calls: seq<Progress>)
    ensures |calls| == |targets|
    ensures forall i :: 0 <= i < |targets| ==> calls[i] == Progress(i, total, CopyingTo(targets[i].Display()))
  {
    if targets == [] then []
    else
      var k := |targets| - 1;
      var prev := Announcements(targets[..k], total);
      assert forall i :: 0 <= i < k ==> targets[..k][i] == targets[i];
      prev + [Progress(k, total, CopyingTo(targets[k].Display()))]
  }

  /** `RoleCopier()`; whether a progress callback is set is the only state. */
  class RoleCopier {
    var hasProgressCallback: bool

    constructor ()
      ensures !hasProgressCallback
    {
      hasProgressCallback := false;
    }

    /** `set_progress_callback(callback)` with a callable, which is truthy. */
    method SetProgressCallback()
      modifies this
      ensures hasProgressCallback
    {
      hasProgressCallback := true;
    }

    /** `copy_role(source, target)` on the shared disk. */
    method CopyRole(disk: FileSystem, source: RoleInfo, target: RoleInfo, now: int) returns (result: CopyResult)
      requires disk.Valid()
      modifies disk
      ensures disk.Valid()
      ensures disk.root == CopyEffect(old(disk.root), source, target, now).root
      ensures result == CopyEffect(old(disk.root), source, target, now).result
    {
      CopyWellFormed(disk.root, source, target, now);
      var src := Parts(source.path);
      var dst := Parts(target.path);
      if Lookup(disk.root, src).None? {
        return CopyResult(false, SourceNotFound(Render(src)));
      }
      var step := ReplaceTree(disk.root, src, dst, now);
      disk.root := step.root;
      if step.error.None? {
        result := CopyResult(true, CopySucceeded);
      } else {
        result := CopyResult(false, CopyError(step.error.value));
      }
    }

    /**
     * `copy_to_multiple(source, targets)`: every target is attempted in order
     * whatever happened to the earlier ones; `calls` are the progress calls made.
     */
    method CopyToMultiple(disk: FileSystem, source: RoleInfo, targets: seq<RoleInfo>, now: int)
      returns (result: BatchResult, calls: seq<Progress>)
      requires disk.Valid()
      modifies disk
      ensures disk.Valid()
      ensures disk.root == Batch(old(disk.root), source, targets, now).root
      ensures result == Summarize(targets, Batch(old(disk.root), source, targets, now).results)
      ensures calls == if hasProgressCallback
        then Announcements(targets, |targets|) + [Progress(|targets|, |targets|, CopyDone)] else []
    {
      var successCount := 0;
      var failed := [];
      var total := |targets|;
      calls := [];
      ghost var start := disk.root;
      var i := 0;
      while i < |targets|
        invariant 0 <= i <= |targets|
        invariant disk.Valid()
        invariant disk.root == Batch(start, source, targets[..i], now).root
        invariant BatchResult(successCount, failed) == Summarize(targets[..i], Batch(start, source, targets[..i], now).results)
        invariant calls == if hasProgressCallback then Announcements(targets[..i], total) else []
      {
        var target := targets[i];
        assert targets[..i + 1][..i] == targets[..i];
        if hasProgressCallback {
          calls := calls + [Progress(i, total, CopyingTo(target.Display()))];
        }
        var r := CopyRole(disk, source, target, now);
        if r.success {
          successCount := successCount + 1;
        } else {
          failed := failed + [Failure(target.Display(), r.message)];
        }
        BatchSteps(start, source, targets, now, i);
        i := i + 1;
      }
      assert targets[..i] == targets;
      if hasProgressCallback {
        calls := calls + [Progress(total, total, CopyDone)];
      }
      result := BatchResult(successCount, failed);
    }
  }

  // ---------------------------------------------------------------------
  // validate_copy

  datatype Validation =
    | Valid                // "validation passed"
    | SourcePathMissing    // "source role path does not exist"
    | SameAsSource         // "source and target cannot be the same"
    | TargetParentMissing  // "target parent directory does not exist"

  /** `validate_copy(source, target)`: three checks, in this order. */
  function ValidateCopy(n: Node, source: RoleInfo, target: RoleInfo): (v: Validation)
    ensures v == SourcePathMissing <==> Lookup(n, Parts(source.path)).None?
    ensures v == SameAsSource <==> Lookup(n, Parts(source.path)).Some? && Parts(source.path) == Parts(target.path)
    ensures v == Valid <==>
      Lookup(n, Parts(source.path)).Some? && Parts(source.path) != Parts(target.path) &&
      Lookup(n, Parent(Parts(target.path))).Some?
  {
    var src := Parts(source.path);
    var dst := Parts(target.path);
    if Lookup(n, src).None? then SourcePathMissing
    else if src == dst then SameAsSource
    else if Lookup(n, Parent(dst)).None? then TargetParentMissing
    else Valid
  }

  /** A role is never validated as a copy onto itself. */
  lemma ValidateRejectsSelf(n: Node, r: RoleInfo)
    ensures ValidateCopy(n, r, r) != Valid
  {
  }

  /**
   * What `validate_copy` leaves unchecked: a copy it accepts succeeds when, in
   * addition, the paths are disjoint, the source and the target's parent are
   * directories and the target is not a file.
   */
  lemma ValidatedCopySucceeds(n: Node, source: RoleInfo, target: RoleInfo, now: int)
    requires WellFormed(n) && ValidateCopy(n, source, target) == Valid
    requires Disjoint(Parts(source.path), Parts(target.path))
    requires IsDirAt(n, Parts(source.path)) && IsDirAt(n, Parent(Parts(target.path)))
    requires !IsFileAt(n, Parts(target.path))
    ensures CopyEffect(n, source, target, now).result.success
    ensures Lookup(CopyEffect(n, source, target, now).root, Parts(target.path)) == Lookup(n, Parts(source.path))
  {
    var dst := Parts(target.path);
    assert dst != [];
    forall i | 0 <= i <= |dst| ensures !IsFileAt(n, dst[..i]) {
      if i < |dst| - 1 {
        AboveIsDir(n, Parent(dst), i);
        assert Parent(dst)[..i] == dst[..i];
      } else if i == |dst| - 1 {
        assert Parent(dst) == dst[..i];
      } else {
        assert dst[..i] == dst;
      }
    }
    CopyDisjoint(n, source, target, now);
  }
}
