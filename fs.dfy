/**
 * The abstract filesystem the backend works on.  A directory holds an ordered
 * list of named entries (the order `iterdir()` yields them in) and carries the
 * `st_mtime` that `stat()` reports; a file has a size.  `RmTree`, `Put` and
 * `CopyTree` are `shutil.rmtree`, `os.makedirs` + placement and
 * `shutil.copytree` on this tree; `ReplaceTree` is the delete-then-copy step
 * that `copy_role` and `restore_backup` both perform.
 */
module FsTree {
  import opened Wrappers
  import opened Paths

  datatype Node = File(size: nat) | Dir(mtime: int, entries: seq<Entry>)

  datatype Entry = Entry(name: string, node: Node)

  /** The OS errors the structural model can raise. */
  datatype OsError =
    | FileNotFound    // ENOENT: nothing at the path
    | NotADirectory   // ENOTDIR: a file where a directory is needed
    | FileExists      // EEXIST: the destination of a copy already exists
    | Busy            // EBUSY: the filesystem root cannot be removed

  /** Index of the first entry called `name`, or |es| when there is none. */
  function Find(es: seq<Entry>, name: string): (k: nat)
    ensures k <= |es|
    ensures k < |es| ==> es[k].name == name
    ensures forall j :: 0 <= j < k ==> es[j].name != name
  {
    if es == [] then 0
    else if es[0].name == name then 0
    else
      var k := 1 + Find(es[1..], name);
      assert forall j :: 1 <= j < k ==> es[j] == es[1..][j - 1];
      k
  }

  /** What `path.exists()` / `stat()` see at `p` below `n`. */
  function Lookup(n: Node, p: Path): Option<Node>
    decreases p
  {
    if p == [] then Some(n)
    else if n.File? then None
    else
      var k := Find(n.entries, p[0]);
      if k == |n.entries| then None else Lookup(n.entries[k].node, p[1..])
  }

  predicate IsDirAt(n: Node, p: Path) {
    Lookup(n, p).Some? && Lookup(n, p).value.Dir?
  }

  predicate IsFileAt(n: Node, p: Path) {
    Lookup(n, p).Some? && Lookup(n, p).value.File?
  }

  /** `p` is not the root, and neither `p` nor any directory above it is a file. */
  predicate Writable(n: Node, p: Path) {
    p != [] && forall i :: 0 <= i <= |p| ==> !IsFileAt(n, p[..i])
  }

  /** Every directory has distinct entry names, each a proper path component. */
  predicate WellFormed(n: Node) {
    n.Dir? ==>
      (forall i, j :: 0 <= i < j < |n.entries| ==> n.entries[i].name != n.entries[j].name) &&
      (forall i :: 0 <= i < |n.entries| ==> IsName(n.entries[i].name) && WellFormed(n.entries[i].node))
  }

  /** The chain of directories `os.makedirs` creates below an existing one, ending in `t`. */
  function Fresh(p: Path, t: Node, now: int): Node
    decreases p
  {
    if p == [] then t else Dir(now, [Entry(p[0], Fresh(p[1..], t, now))])
  }

  /**
   * Place `t` at `p`, creating missing directories (with mtime `now`) on the way.
   * Fails with FileExists when `p` already exists and with NotADirectory when a
   * file stands where a directory is needed.  A new entry goes last in its directory.
   */
  function Put(n: Node, p: Path, t: Node, now: int): Result<Node, OsError>
    decreases p
  {
    if p == [] then Err(FileExists)
    else if n.File? then Err(NotADirectory)
    else
      var es := n.entries;
      var k := Find(es, p[0]);
      if k == |es| then Ok(Dir(n.mtime, es + [Entry(p[0], Fresh(p[1..], t, now))]))
      else
        match Put(es[k].node, p[1..], t, now)
        case Err(e) => Err(e)
        case Ok(c) => Ok(Dir(n.mtime, es[..k] + [Entry(p[0], c)] + es[k + 1..]))
  }

  /** `shutil.rmtree(p)`: removes the directory at `p` with everything below it. */
  function RmTree(n: Node, p: Path): Result<Node, OsError>
    decreases p
  {
    if p == [] then Err(Busy)
    else if n.File? then Err(NotADirectory)
    else
      var es := n.entries;
      var k := Find(es, p[0]);
      if k == |es| then Err(FileNotFound)
      else if |p| == 1 then
        if es[k].node.File? then Err(NotADirectory) else Ok(Dir(n.mtime, es[..k] + es[k + 1..]))
      else
        match RmTree(es[k].node, p[1..])
        case Err(e) => Err(e)
        case Ok(c) => Ok(Dir(n.mtime, es[..k] + [Entry(p[0], c)] + es[k + 1..]))
  }

  /** `shutil.copytree(src, dst)`: the copy keeps the source's entries and mtimes (copystat). */
  function CopyTree(n: Node, src: Path, dst: Path, now: int): Result<Node, OsError> {
    match Lookup(n, src)
    case None => Err(FileNotFound)
    case Some(s) => if s.File? then Err(NotADirectory) else Put(n, dst, s, now)
  }

  /** The filesystem after an operation, and the exception it raised, if any. */
  datatype Step = Step(root: Node, error: Option<OsError>)

  /** `if dst.exists(): rmtree(dst)` then `copytree(src, dst)`; not atomic. */
  function ReplaceTree(n: Node, src: Path, dst: Path, now: int): Step {
    var removed := if Lookup(n, dst).Some? then RmTree(n, dst) else Ok(n);
    match removed
    case Err(e) => Step(n, Some(e))
    case Ok(n1) =>
      match CopyTree(n1, src, dst, now)
      case Err(e) => Step(n1, Some(e))
      case Ok(n2) => Step(n2, None)
  }

  /** `os.makedirs(p, exist_ok=True)`. */
  function MakeDirs(n: Node, p: Path, now: int): Result<Node, OsError> {
    match Lookup(n, p)
    case Some(d) => if d.Dir? then Ok(n) else Err(FileExists)
    case None => Put(n, p, Dir(now, []), now)
  }

  /** The entries of the directory at `p`, or [] when there is none. */
  function Listing(n: Node, p: Path): seq<Entry> {
    match Lookup(n, p)
    case Some(d) => if d.Dir? then d.entries else []
    case None => []
  }

  /** The shared disk every component reads and writes. */
  class FileSystem {
    var root: Node

    ghost predicate Valid()
      reads this
    {
      root.Dir? && WellFormed(root)
    }

    constructor (root: Node)
      requires root.Dir? && WellFormed(root)
      ensures Valid() && this.root == root
    {
      this.root := root;
    }
  }

  // ---------------------------------------------------------------------
  // Entry lists

  lemma FindAppend(es: seq<Entry>, e: Entry, x: string)
    requires e.name != x
    ensures Find(es + [e], x) == (if Find(es, x) < |es| then Find(es, x) else |es| + 1)
  {
    var k := Find(es, x);
    var es' := es + [e];
    if k < |es| {
      assert es'[k] == es[k];
      assert forall j :: 0 <= j < k ==> es'[j] == es[j];
      FindIsFirst(es', x, k);
    } else {
      FindNone(es', x);
    }
  }

  lemma FindIsFirst(es: seq<Entry>, x: string, k: nat)
    requires k < |es| && es[k].name == x
    requires forall j :: 0 <= j < k ==> es[j].name != x
    ensures Find(es, x) == k
  {
  }

  lemma FindNone(es: seq<Entry>, x: string)
    requires forall j :: 0 <= j < |es| ==> es[j].name != x
    ensures Find(es, x) == |es|
  {
  }

  /** Replacing an entry by one with the same name keeps every other name's first match. */
  lemma FindReplace(es: seq<Entry>, k: nat, e: Entry, x: string)
    requires k < |es| && e.name == es[k].name
    ensures var es' := es[..k] + [e] + es[k + 1..];
      |es'| == |es| && Find(es', x) == Find(es, x) &&
      (forall j :: 0 <= j < |es| && j != k ==> es'[j] == es[j]) && es'[k] == e
  {
    var es' := es[..k] + [e] + es[k + 1..];
    assert forall j :: 0 <= j < |es| && j != k ==> es'[j] == es[j];
    var f := Find(es, x);
    if f < |es| {
      FindIsFirst(es', x, f);
    } else {
      FindNone(es', x);
    }
  }

  /** Dropping entry k keeps every other name's first match (shifted past k). */
  lemma FindDrop(es: seq<Entry>, k: nat, x: string)
    requires k < |es| && es[k].name != x
    requires Find(es, x) == |es| || Find(es, x) != k
    ensures var es' := es[..k] + es[k + 1..];
      Find(es', x) == (if Find(es, x) == |es| then |es'| else if Find(es, x) < k then Find(es, x) else Find(es, x) - 1)
  {
    var es' := es[..k] + es[k + 1..];
    var f := Find(es, x);
    assert forall j :: 0 <= j < k ==> es'[j] == es[j];
    assert forall j :: k <= j < |es'| ==> es'[j] == es[j + 1];
    if f == |es| {
      FindNone(es', x);
    } else if f < k {
      FindIsFirst(es', x, f);
    } else {
      FindIsFirst(es', x, f - 1);
    }
  }

  /** With distinct names, dropping entry k leaves no entry of that name. */
  lemma FindDropped(es: seq<Entry>, k: nat)
    requires k < |es|
    requires forall i, j :: 0 <= i < j < |es| ==> es[i].name != es[j].name
    ensures Find(es[..k] + es[k + 1..], es[k].name) == |es| - 1
  {
    var es' := es[..k] + es[k + 1..];
    forall j | 0 <= j < |es'|
      ensures es'[j].name != es[k].name
    {
      if j < k {
        assert es'[j] == es[j];
      } else {
        assert es'[j] == es[j + 1];
      }
    }
    FindNone(es', es[k].name);
  }

  /** In a well-formed directory an entry is found by its own name. */
  lemma FindUnique(es: seq<Entry>, k: nat)
    requires k < |es|
    requires forall i, j :: 0 <= i < j < |es| ==> es[i].name != es[j].name
    ensures Find(es, es[k].name) == k
  {
    FindIsFirst(es, es[k].name, k);
  }

  // ---------------------------------------------------------------------
  // Lookup

  lemma LookupStep(n: Node, p: Path)
    requires p != [] && n.Dir?
    ensures Lookup(n, p) ==
      (var k := Find(n.entries, p[0]); if k == |n.entries| then None else Lookup(n.entries[k].node, p[1..]))
  {
  }

  /** Looking up `p + r` is looking up `r` below what `p` finds. */
  lemma {:induction false} LookupAppend(n: Node, p: Path, r: Path)
    ensures Lookup(n, p + r) == match Lookup(n, p) case None => None case Some(m) => Lookup(m, r)
    decreases p
  {
    if p != [] {
      assert (p + r)[0] == p[0];
      assert (p + r)[1..] == p[1..] + r;
      if n.Dir? {
        var k := Find(n.entries, p[0]);
        if k < |n.entries| {
          LookupAppend(n.entries[k].node, p[1..], r);
        }
      }
    } else {
      assert p + r == r;
    }
  }

  /** Whatever lies strictly above something that exists is a directory. */
  lemma {:induction false} AboveIsDir(n: Node, p: Path, i: nat)
    requires Lookup(n, p).Some?
    requires i < |p|
    ensures IsDirAt(n, p[..i])
    decreases p
  {
    if i == 0 {
      assert p[..0] == [];
    } else {
      var k := Find(n.entries, p[0]);
      assert p[..i][0] == p[0] && p[..i][1..] == p[1..][..i - 1];
      AboveIsDir(n.entries[k].node, p[1..], i - 1);
    }
  }

  lemma FreshLookup(p: Path, t: Node, now: int, q: Path)
    ensures Disjoint(p, q) ==> Lookup(Fresh(p, t, now), q) == None
    ensures p <= q ==> Lookup(Fresh(p, t, now), q) == Lookup(t, q[|p|..])
    decreases p
  {
    if p != [] && q != [] {
      assert Fresh(p, t, now).entries[0].name == p[0];
      if q[0] == p[0] {
        assert Disjoint(p, q) ==> Disjoint(p[1..], q[1..]);
        assert p <= q ==> p[1..] <= q[1..] && q[|p|..] == q[1..][|p[1..]|..];
        FreshLookup(p[1..], t, now, q[1..]);
      }
    }
  }

  // ---------------------------------------------------------------------
  // Put

  /** Put succeeds exactly when the destination is missing and no file stands above it. */
  lemma {:induction false} PutOk(n: Node, p: Path, t: Node, now: int)
    ensures Put(n, p, t, now).Ok? <==>
      p != [] && Lookup(n, p).None? && forall i :: 0 <= i < |p| ==> !IsFileAt(n, p[..i])
    decreases p
  {
    if p != [] {
      assert p[..0] == [];
      if n.Dir? {
        var es := n.entries;
        var k := Find(es, p[0]);
        LookupStep(n, p);
        if k < |es| {
          var c := es[k].node;
          PutOk(c, p[1..], t, now);
          forall i | 1 <= i < |p|
            ensures IsFileAt(n, p[..i]) == IsFileAt(c, p[1..][..i - 1])
          {
            assert p[..i][0] == p[0] && p[..i][1..] == p[1..][..i - 1];
            LookupStep(n, p[..i]);
          }
          var above := forall i :: 0 <= i < |p| ==> !IsFileAt(n, p[..i]);
          var below := forall i :: 0 <= i < |p| - 1 ==> !IsFileAt(c, p[1..][..i]);
          assert above <==> below by {
            if above {
              forall i | 0 <= i < |p| - 1 ensures !IsFileAt(c, p[1..][..i]) {
                assert !IsFileAt(n, p[..i + 1]);
              }
            }
            if below {
              forall i | 0 <= i < |p| ensures !IsFileAt(n, p[..i]) {
                if i > 0 {
                  assert !IsFileAt(c, p[1..][..i - 1]);
                }
              }
            }
          }
          if |p| == 1 {
            assert Lookup(n, p) == Lookup(c, []);
          }
        } else {
          forall i | 0 <= i < |p| ensures !IsFileAt(n, p[..i]) {
            if i > 0 {
              assert p[..i][0] == p[0];
              LookupStep(n, p[..i]);
            }
          }
        }
      } else {
        assert IsFileAt(n, p[..0]);
      }
    }
  }

  /** After a successful Put, `t` sits at `p`, and nothing beside `p` has changed. */
  lemma {:induction false} PutLookup(n: Node, p: Path, t: Node, now: int, q: Path)
    requires Put(n, p, t, now).Ok?
    ensures Disjoint(p, q) ==> Lookup(Put(n, p, t, now).value, q) == Lookup(n, q)
    ensures p <= q ==> Lookup(Put(n, p, t, now).value, q) == Lookup(t, q[|p|..])
    decreases p
  {
    var n' := Put(n, p, t, now).value;
    var es := n.entries;
    var k := Find(es, p[0]);
    if q != [] {
      LookupStep(n, q);
      LookupStep(n', q);
      if k == |es| {
        var e := Entry(p[0], Fresh(p[1..], t, now));
        assert n'.entries == es + [e];
        if q[0] != p[0] {
          FindAppend(es, e, q[0]);
          var f := Find(es, q[0]);
          if f < |es| {
            assert n'.entries[f] == es[f];
          }
        } else {
          FindNone(es, q[0]);
          FindIsFirst(n'.entries, q[0], |es|);
          assert Disjoint(p, q) ==> Disjoint(p[1..], q[1..]);
          assert p <= q ==> p[1..] <= q[1..] && q[|p|..] == q[1..][|p[1..]|..];
          FreshLookup(p[1..], t, now, q[1..]);
        }
      } else {
        var c := Put(es[k].node, p[1..], t, now).value;
        FindReplace(es, k, Entry(p[0], c), q[0]);
        if q[0] == p[0] {
          assert Disjoint(p, q) ==> Disjoint(p[1..], q[1..]);
          assert p <= q ==> p[1..] <= q[1..] && q[|p|..] == q[1..][|p[1..]|..];
          PutLookup(es[k].node, p[1..], t, now, q[1..]);
        }
      }
    }
  }

  /** Put into an existing directory appends the new entry to that directory's listing. */
  lemma {:induction false} PutChild(n: Node, dir: Path, name: string, t: Node, now: int)
    requires IsDirAt(n, dir)
    requires Find(Lookup(n, dir).value.entries, name) == |Lookup(n, dir).value.entries|
    ensures Put(n, dir + [name], t, now).Ok?
    ensures var d := Lookup(n, dir).value;
      Lookup(Put(n, dir + [name], t, now).value, dir) == Some(Dir(d.mtime, d.entries + [Entry(name, t)]))
    decreases dir
  {
    if dir == [] {
      assert [] + [name] == [name];
    } else {
      var es := n.entries;
      var k := Find(es, dir[0]);
      assert (dir + [name])[0] == dir[0] && (dir + [name])[1..] == dir[1..] + [name];
      PutChild(es[k].node, dir[1..], name, t, now);
      var c := Put(es[k].node, dir[1..] + [name], t, now).value;
      FindReplace(es, k, Entry(dir[0], c), dir[0]);
    }
  }

  /** Put keeps directories well formed. */
  lemma {:induction false} PutWellFormed(n: Node, p: Path, t: Node, now: int)
    requires WellFormed(n) && WellFormed(t) && IsNormal(p)
    requires Put(n, p, t, now).Ok?
    ensures WellFormed(Put(n, p, t, now).value)
    decreases p
  {
    var es := n.entries;
    var k := Find(es, p[0]);
    if k == |es| {
      FreshWellFormed(p[1..], t, now);
      var es' := es + [Entry(p[0], Fresh(p[1..], t, now))];
      assert forall i :: 0 <= i < |es| ==> es'[i] == es[i];
    } else {
      var c := Put(es[k].node, p[1..], t, now).value;
      PutWellFormed(es[k].node, p[1..], t, now);
      FindReplace(es, k, Entry(p[0], c), p[0]);
    }
  }

  lemma {:induction false} FreshWellFormed(p: Path, t: Node, now: int)
    requires WellFormed(t) && IsNormal(p)
    ensures WellFormed(Fresh(p, t, now))
    decreases p
  {
    if p != [] {
      FreshWellFormed(p[1..], t, now);
    }
  }

  // ---------------------------------------------------------------------
  // RmTree

  /** rmtree succeeds exactly on a directory other than the root. */
  lemma {:induction false} RmTreeOk(n: Node, p: Path)
    ensures RmTree(n, p).Ok? <==> p != [] && IsDirAt(n, p)
    decreases p
  {
    if p != [] && n.Dir? {
      LookupStep(n, p);
      var k := Find(n.entries, p[0]);
      if k < |n.entries| {
        if |p| > 1 {
          RmTreeOk(n.entries[k].node, p[1..]);
        } else {
          assert Lookup(n, p) == Lookup(n.entries[k].node, []);
        }
      }
    }
  }

  /** Dropping one entry does not change what a path through another name finds. */
  lemma LookupDropOther(m: int, es: seq<Entry>, k: nat, q: Path)
    requires k < |es| && q != [] && q[0] != es[k].name
    ensures Lookup(Dir(m, es[..k] + es[k + 1..]), q) == Lookup(Dir(m, es), q)
  {
    var es' := es[..k] + es[k + 1..];
    var f := Find(es, q[0]);
    FindDrop(es, k, q[0]);
    LookupStep(Dir(m, es), q);
    LookupStep(Dir(m, es'), q);
    if f < |es| {
      if f < k { assert es'[f] == es[f]; } else { assert es'[f - 1] == es[f]; }
    }
  }

  /** Replacing one entry does not change what a path through another name finds. */
  lemma LookupReplaceOther(m: int, es: seq<Entry>, k: nat, e: Entry, q: Path)
    requires k < |es| && e.name == es[k].name && q != [] && q[0] != e.name
    ensures Lookup(Dir(m, es[..k] + [e] + es[k + 1..]), q) == Lookup(Dir(m, es), q)
  {
    FindReplace(es, k, e, q[0]);
    LookupStep(Dir(m, es), q);
    LookupStep(Dir(m, es[..k] + [e] + es[k + 1..]), q);
  }

  /** Replacing entry k means a path through its name now looks below the new node. */
  lemma LookupReplaceSame(m: int, es: seq<Entry>, k: nat, e: Entry, q: Path)
    requires k < |es| && e.name == es[k].name && q != [] && q[0] == e.name
    requires Find(es, e.name) == k
    ensures Lookup(Dir(m, es[..k] + [e] + es[k + 1..]), q) == Lookup(e.node, q[1..])
  {
    FindReplace(es, k, e, q[0]);
    LookupStep(Dir(m, es[..k] + [e] + es[k + 1..]), q);
  }

  /** rmtree changes nothing beside `p`. */
  lemma {:induction false} RmTreeDisjoint(n: Node, p: Path, q: Path)
    requires RmTree(n, p).Ok? && Disjoint(p, q)
    ensures Lookup(RmTree(n, p).value, q) == Lookup(n, q)
    decreases p
  {
    var es := n.entries;
    var k := Find(es, p[0]);
    if |p| == 1 {
      LookupDropOther(n.mtime, es, k, q);
    } else {
      var c := RmTree(es[k].node, p[1..]).value;
      var e := Entry(p[0], c);
      if q[0] == p[0] {
        LookupReplaceSame(n.mtime, es, k, e, q);
        LookupStep(n, q);
        assert Disjoint(p[1..], q[1..]);
        RmTreeDisjoint(es[k].node, p[1..], q[1..]);
      } else {
        LookupReplaceOther(n.mtime, es, k, e, q);
      }
    }
  }

  /** In a well-formed tree nothing is left at or below a removed path. */
  lemma {:induction false} RmTreeBelow(n: Node, p: Path, q: Path)
    requires WellFormed(n) && RmTree(n, p).Ok? && p <= q
    ensures Lookup(RmTree(n, p).value, q) == None
    decreases p
  {
    var n' := RmTree(n, p).value;
    var es := n.entries;
    var k := Find(es, p[0]);
    LookupStep(n', q);
    assert q[0] == p[0];
    if |p| == 1 {
      FindDropped(es, k);
    } else {
      var c := RmTree(es[k].node, p[1..]).value;
      FindReplace(es, k, Entry(p[0], c), q[0]);
      assert p[1..] <= q[1..];
      RmTreeBelow(es[k].node, p[1..], q[1..]);
    }
  }

  /** The directories above a removed path stay directories. */
  lemma {:induction false} RmTreeAbove(n: Node, p: Path, q: Path)
    requires RmTree(n, p).Ok? && q < p
    ensures IsDirAt(RmTree(n, p).value, q)
    decreases p
  {
    if q != [] {
      var n' := RmTree(n, p).value;
      var es := n.entries;
      var k := Find(es, p[0]);
      LookupStep(n', q);
      var c := RmTree(es[k].node, p[1..]).value;
      FindReplace(es, k, Entry(p[0], c), q[0]);
      assert q[1..] < p[1..];
      RmTreeAbove(es[k].node, p[1..], q[1..]);
    }
  }

  /** rmtree of `dir/name` drops exactly that entry from `dir`'s listing. */
  lemma {:induction false} RmTreeChild(n: Node, dir: Path, name: string)
    requires IsDirAt(n, dir + [name])
    ensures RmTree(n, dir + [name]).Ok?
    ensures IsDirAt(n, dir)
    ensures Find(Lookup(n, dir).value.entries, name) < |Lookup(n, dir).value.entries|
    ensures var d := Lookup(n, dir).value; var k := Find(d.entries, name);
      Lookup(RmTree(n, dir + [name]).value, dir) == Some(Dir(d.mtime, d.entries[..k] + d.entries[k + 1..]))
    decreases dir
  {
    LookupAppend(n, dir, [name]);
    RmTreeOk(n, dir + [name]);
    if dir != [] {
      var es := n.entries;
      var k := Find(es, dir[0]);
      assert (dir + [name])[0] == dir[0] && (dir + [name])[1..] == dir[1..] + [name];
      RmTreeChild(es[k].node, dir[1..], name);
      var c := RmTree(es[k].node, dir[1..] + [name]).value;
      FindReplace(es, k, Entry(dir[0], c), dir[0]);
    } else {
      assert [] + [name] == [name];
    }
  }

  /** rmtree keeps directories well formed. */
  lemma {:induction false} RmTreeWellFormed(n: Node, p: Path)
    requires WellFormed(n) && RmTree(n, p).Ok?
    ensures WellFormed(RmTree(n, p).value) && RmTree(n, p).value.Dir?
    decreases p
  {
    var es := n.entries;
    var k := Find(es, p[0]);
    if |p| == 1 {
      var es' := es[..k] + es[k + 1..];
      assert forall j :: 0 <= j < k ==> es'[j] == es[j];
      assert forall j :: k <= j < |es'| ==> es'[j] == es[j + 1];
    } else {
      var c := RmTree(es[k].node, p[1..]).value;
      RmTreeWellFormed(es[k].node, p[1..]);
      FindReplace(es, k, Entry(p[0], c), p[0]);
    }
  }

  /** Every subtree of a well-formed tree is well formed. */
  lemma {:induction false} LookupWellFormed(n: Node, p: Path)
    requires WellFormed(n) && Lookup(n, p).Some?
    ensures WellFormed(Lookup(n, p).value)
    decreases p
  {
    if p != [] {
      var k := Find(n.entries, p[0]);
      LookupWellFormed(n.entries[k].node, p[1..]);
    }
  }

  /** In a well-formed tree every path that exists is made of proper components. */
  lemma {:induction false} LookupNormal(n: Node, p: Path)
    requires WellFormed(n) && Lookup(n, p).Some?
    ensures IsNormal(p)
    decreases p
  {
    if p != [] {
      var k := Find(n.entries, p[0]);
      LookupNormal(n.entries[k].node, p[1..]);
      assert forall i :: 1 <= i < |p| ==> p[i] == p[1..][i - 1];
    }
  }

  /** Below a directory the lookup does not depend on its mtime. */
  lemma LookupMtime(m: int, es: seq<Entry>, q: Path)
    requires q != []
    ensures Lookup(Dir(m, es), q) == Lookup(Dir(0, es), q)
  {
    LookupStep(Dir(m, es), q);
    LookupStep(Dir(0, es), q);
  }

  /** Looking up below a directory whose last entry bears a name no other entry has. */
  lemma LookupLast(m: int, es: seq<Entry>, e: Entry, q: Path)
    requires q != []
    requires forall i :: 0 <= i < |es| ==> es[i].name != e.name
    ensures Lookup(Dir(m, es + [e]), q) ==
      if q[0] == e.name then Lookup(e.node, q[1..]) else Lookup(Dir(m, es), q)
  {
    LookupStep(Dir(m, es + [e]), q);
    LookupStep(Dir(m, es), q);
    if q[0] == e.name {
      assert forall j :: 0 <= j < |es| ==> (es + [e])[j].name != q[0];
      FindIsFirst(es + [e], q[0], |es|);
    } else {
      FindAppend(es, e, q[0]);
      var k := Find(es, q[0]);
      if k < |es| {
        assert (es + [e])[k] == es[k];
      }
    }
  }

  /** A well-formed directory without its last entry is well formed, and that entry's name is unique. */
  lemma WellFormedLast(m: int, es: seq<Entry>, e: Entry)
    requires WellFormed(Dir(m, es + [e]))
    ensures WellFormed(Dir(0, es)) && WellFormed(e.node) && IsName(e.name)
    ensures forall i :: 0 <= i < |es| ==> es[i].name != e.name
  {
    var all := es + [e];
    assert forall i :: 0 <= i < |es| ==> all[i] == es[i];
    assert all[|es|] == e;
  }

  // ---------------------------------------------------------------------
  // copytree and the delete-then-copy step

  /** copytree succeeds exactly when the source is a directory and the destination can be created. */
  lemma CopyTreeOk(n: Node, src: Path, dst: Path, now: int)
    ensures CopyTree(n, src, dst, now).Ok? <==>
      IsDirAt(n, src) && Writable(n, dst) && Lookup(n, dst).None?
  {
    if IsDirAt(n, src) {
      PutOk(n, dst, Lookup(n, src).value, now);
      assert dst[..|dst|] == dst;
    }
  }

  /** A successful copytree puts the source's tree at `dst` and changes nothing beside `dst`. */
  lemma CopyTreeLookup(n: Node, src: Path, dst: Path, now: int, q: Path)
    requires CopyTree(n, src, dst, now).Ok?
    ensures Lookup(CopyTree(n, src, dst, now).value, dst) == Lookup(n, src)
    ensures Disjoint(dst, q) ==> Lookup(CopyTree(n, src, dst, now).value, q) == Lookup(n, q)
  {
    var t := Lookup(n, src).value;
    PutLookup(n, dst, t, now, q);
    PutLookup(n, dst, t, now, dst);
    assert dst[|dst|..] == [];
  }

  lemma CopyTreeWellFormed(n: Node, src: Path, dst: Path, now: int)
    requires WellFormed(n) && IsNormal(dst) && CopyTree(n, src, dst, now).Ok?
    ensures WellFormed(CopyTree(n, src, dst, now).value) && CopyTree(n, src, dst, now).value.Dir?
  {
    LookupWellFormed(n, src);
    PutWellFormed(n, dst, Lookup(n, src).value, now);
  }

  /** Whatever the outcome, the delete-then-copy step changes nothing beside `dst`. */
  lemma ReplaceTreeFrame(n: Node, src: Path, dst: Path, now: int, q: Path)
    requires Disjoint(dst, q)
    ensures Lookup(ReplaceTree(n, src, dst, now).root, q) == Lookup(n, q)
  {
    var n1 := n;
    if Lookup(n, dst).Some? {
      if RmTree(n, dst).Ok? {
        RmTreeDisjoint(n, dst, q);
        n1 := RmTree(n, dst).value;
      }
    }
    if (Lookup(n, dst).None? || RmTree(n, dst).Ok?) && CopyTree(n1, src, dst, now).Ok? {
      CopyTreeLookup(n1, src, dst, now, q);
    }
  }

  /** When source and destination are disjoint, the step succeeds exactly when the source is a directory and the destination is writable. */
  lemma ReplaceTreeOk(n: Node, src: Path, dst: Path, now: int)
    requires WellFormed(n) && Disjoint(src, dst)
    ensures ReplaceTree(n, src, dst, now).error == None <==> IsDirAt(n, src) && Writable(n, dst)
  {
    assert dst[..|dst|] == dst;
    match Lookup(n, dst)
    case None =>
      CopyTreeOk(n, src, dst, now);
    case Some(d) =>
      RmTreeOk(n, dst);
      if d.Dir? && dst != [] {
        var n1 := RmTree(n, dst).value;
        RmTreeDisjoint(n, dst, src);
        RmTreeBelow(n, dst, dst);
        CopyTreeOk(n1, src, dst, now);
        forall i | 0 <= i <= |dst| ensures !IsFileAt(n, dst[..i]) && !IsFileAt(n1, dst[..i]) {
          if i < |dst| {
            AboveIsDir(n, dst, i);
            RmTreeAbove(n, dst, dst[..i]);
          }
        }
      }
  }

  /** On success with disjoint paths, `dst` holds the source's original tree and the source is unchanged. */
  lemma ReplaceTreeCopies(n: Node, src: Path, dst: Path, now: int)
    requires Disjoint(src, dst)
    requires ReplaceTree(n, src, dst, now).error == None
    ensures Lookup(ReplaceTree(n, src, dst, now).root, dst) == Lookup(n, src)
    ensures Lookup(ReplaceTree(n, src, dst, now).root, src) == Lookup(n, src)
  {
    ReplaceTreeFrame(n, src, dst, now, src);
    var n1 := if Lookup(n, dst).Some? then RmTree(n, dst).value else n;
    if Lookup(n, dst).Some? {
      RmTreeDisjoint(n, dst, src);
    }
    CopyTreeLookup(n1, src, dst, now, src);
  }

  /** The step is not atomic: once `dst` has been removed, a failing copy leaves nothing at `dst`. */
  lemma ReplaceTreeLosesTarget(n: Node, src: Path, dst: Path, now: int)
    requires WellFormed(n) && RmTree(n, dst).Ok?
    requires !IsDirAt(RmTree(n, dst).value, src)
    ensures ReplaceTree(n, src, dst, now).error.Some?
    ensures Lookup(ReplaceTree(n, src, dst, now).root, dst) == None
  {
    RmTreeOk(n, dst);
    RmTreeBelow(n, dst, dst);
  }

  /** The step keeps the tree well formed. */
  lemma ReplaceTreeWellFormed(n: Node, src: Path, dst: Path, now: int)
    requires WellFormed(n) && IsNormal(dst)
    ensures WellFormed(ReplaceTree(n, src, dst, now).root)
    ensures n.Dir? ==> ReplaceTree(n, src, dst, now).root.Dir?
  {
    var n1 := n;
    if Lookup(n, dst).Some? && RmTree(n, dst).Ok? {
      RmTreeWellFormed(n, dst);
      n1 := RmTree(n, dst).value;
    }
    if (Lookup(n, dst).None? || RmTree(n, dst).Ok?) && CopyTree(n1, src, dst, now).Ok? {
      CopyTreeWellFormed(n1, src, dst, now);
    }
  }

  lemma MakeDirsWellFormed(n: Node, p: Path, now: int)
    requires WellFormed(n) && IsNormal(p) && MakeDirs(n, p, now).Ok?
    ensures WellFormed(MakeDirs(n, p, now).value)
    ensures n.Dir? ==> MakeDirs(n, p, now).value.Dir?
  {
    if Lookup(n, p).None? {
      PutWellFormed(n, p, Dir(now, []), now);
    }
  }

  /** After a successful makedirs the directory exists, and nothing beside it has changed. */
  lemma MakeDirsLookup(n: Node, p: Path, now: int, q: Path)
    requires MakeDirs(n, p, now).Ok?
    ensures IsDirAt(MakeDirs(n, p, now).value, p)
    ensures Disjoint(p, q) ==> Lookup(MakeDirs(n, p, now).value, q) == Lookup(n, q)
  {
    if Lookup(n, p).None? {
      PutLookup(n, p, Dir(now, []), now, q);
      PutLookup(n, p, Dir(now, []), now, p);
      assert p[|p|..] == [];
    }
  }
}
