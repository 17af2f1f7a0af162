/**
 * backend/backup_manager.py: snapshots of role folders kept in one backup
 * folder on the shared disk, the per-role retention of the newest
 * `max_backups`, the listing, restore and delete.
 */
module Backups {
  import opened Wrappers
  import opened Paths
  import opened FsTree
  import opened Models
  import Strings
  import Clock

  // ---------------------------------------------------------------------
  // Python slices with a possibly negative bound

  /** The index Python uses for the bound `k` of `s[k:]` and `s[:k]` on a list of length `len`. */
  function SliceIndex(len: nat, k: int): (i: nat)
    ensures i <= len
    ensures k >= 0 ==> i == if k <= len then k else len
  {
    if k >= 0 then (if k <= len then k else len)
    else if len + k >= 0 then len + k else 0
  }

  /** `s[:k]` */
  function Upto<T>(s: seq<T>, k: int): (r: seq<T>)
    ensures k >= 0 ==> |r| <= k
    ensures r <= s
  {
    s[..SliceIndex(|s|, k)]
  }

  /** `s[k:]` */
  function From<T>(s: seq<T>, k: int): (r: seq<T>)
    ensures Upto(s, k) + r == s
  {
    var i := SliceIndex(|s|, k);
    assert s[..i] + s[i..] == s;
    s[i..]
  }

  // ---------------------------------------------------------------------
  // Names

  const DefaultFolder: string := "userdata_backup"

  /** The name prefix of a role's backups: `account_region_server_role_`. */
  function RoleKey(role: RoleInfo): string {
    role.account + "_" + role.region + "_" + role.server + "_" + role.role
  }

  function Prefix(role: RoleInfo): string {
    RoleKey(role) + "_"
  }

  /** The folder name `backup_role` gives a snapshot taken at `stamp`. */
  function BackupName(role: RoleInfo, stamp: string): (name: string)
    ensures Prefix(role) <= name
  {
    Prefix(role) + stamp
  }

  /** `name.rsplit('_', 2)[0]` recovers `account_region_server_role` from a name `backup_role` made. */
  lemma RoleInfoOfName(role: RoleInfo, dt: Clock.DateTime)
    ensures Strings.RSplit2Head(BackupName(role, Clock.Stamp(dt)), '_') == RoleKey(role)
  {
    StampedHead(role, Clock.Stamp(dt));
  }

  /** The same for any string shaped like a stamp: eight digits, "_", six digits. */
  lemma StampedHead(role: RoleInfo, st: string)
    requires |st| == 15 && st[8] == '_'
    requires forall i :: 0 <= i < 15 && i != 8 ==> Clock.IsDigit(st[i])
    ensures Strings.RSplit2Head(BackupName(role, st), '_') == RoleKey(role)
  {
    var date, time := st[..8], st[9..];
    assert st == date + ['_'] + time;
    assert '_' !in date by {
      forall i | 0 <= i < |date| ensures date[i] != '_' {
        assert Clock.IsDigit(st[i]);
      }
    }
    assert '_' !in time by {
      forall i | 0 <= i < |time| ensures time[i] != '_' {
        assert time[i] == st[9 + i] && Clock.IsDigit(st[9 + i]);
      }
    }
    Strings.RSplit2HeadOf(RoleKey(role), '_', date, time);
    assert BackupName(role, st) == RoleKey(role) + ['_'] + date + ['_'] + time;
  }

  /** The backup folder is normal; the default is `userdata_backup` beside the userdata folder. */
  function BackupDirFor(userdataPath: string, backupDir: Option<string>): (dir: Path)
    ensures IsNormal(dir)
    ensures backupDir.Some? && backupDir.value != "" ==> dir == Parts(backupDir.value)
    ensures backupDir.None? || backupDir.value == "" ==>
      dir == Parent(Parts(userdataPath)) + [DefaultFolder]
  {
    if backupDir.Some? && backupDir.value != "" then Parts(backupDir.value)
    else
      var p := Parts(userdataPath);
      assert IsNormal(Parent(p)) by { assert forall i :: 0 <= i < |Parent(p)| ==> Parent(p)[i] == p[i]; }
      Parent(p) + [DefaultFolder]
  }

  // ---------------------------------------------------------------------
  // Entries of the backup folder, ordered newest first

  /** `st_mtime` of a listed entry; only directories are ever ordered. */
  function Mtime(e: Entry): int {
    if e.node.Dir? then e.node.mtime else 0
  }

  predicate NewestFirst(s: seq<Entry>) {
    forall i, j :: 0 <= i < j < |s| ==> Mtime(s[i]) >= Mtime(s[j])
  }

  predicate DistinctNames(s: seq<Entry>) {
    forall i, j :: 0 <= i < j < |s| ==> s[i].name != s[j].name
  }

  /** Insert `x` after every entry at least as new, which keeps the sort stable. */
  function InsertByMtime(s: seq<Entry>, x: Entry): seq<Entry> {
    if s == [] then [x]
    else if Mtime(s[0]) >= Mtime(x) then [s[0]] + InsertByMtime(s[1..], x)
    else [x] + s
  }

  lemma {:induction false} InsertByMtimeElements(s: seq<Entry>, x: Entry)
    ensures multiset(InsertByMtime(s, x)) == multiset(s) + multiset{x}
    decreases |s|
  {
    if s != [] && Mtime(s[0]) >= Mtime(x) {
      InsertByMtimeElements(s[1..], x);
      assert s == [s[0]] + s[1..];
    }
  }

  lemma PrependNewest(h: Entry, t: seq<Entry>)
    requires NewestFirst(t)
    requires forall y :: y in t ==> Mtime(h) >= Mtime(y)
    ensures NewestFirst([h] + t)
  {
    var r := [h] + t;
    forall i, j | 0 <= i < j < |r| ensures Mtime(r[i]) >= Mtime(r[j]) {
      if i == 0 { assert r[j] in t; }
      else { assert r[i] == t[i - 1] && r[j] == t[j - 1]; }
    }
  }

  lemma NewestFirstTail(s: seq<Entry>)
    requires NewestFirst(s) && s != []
    ensures NewestFirst(s[1..])
    ensures forall y :: y in s ==> Mtime(s[0]) >= Mtime(y)
  {
    forall i, j | 0 <= i < j < |s[1..]| ensures Mtime(s[1..][i]) >= Mtime(s[1..][j]) {
      assert s[1..][i] == s[i + 1] && s[1..][j] == s[j + 1];
    }
  }

  lemma {:induction false} InsertByMtimeSorted(s: seq<Entry>, x: Entry)
    requires NewestFirst(s)
    ensures NewestFirst(InsertByMtime(s, x))
    decreases |s|
  {
    if s != [] {
      NewestFirstTail(s);
      if Mtime(s[0]) >= Mtime(x) {
        var t := InsertByMtime(s[1..], x);
        InsertByMtimeSorted(s[1..], x);
        InsertByMtimeElements(s[1..], x);
        forall y | y in t ensures Mtime(s[0]) >= Mtime(y) {
          assert y in multiset(t);
        }
        PrependNewest(s[0], t);
      } else {
        PrependNewest(x, s);
      }
    }
  }

  lemma {:induction false} InsertByMtimeDistinct(s: seq<Entry>, x: Entry)
    requires DistinctNames(s)
    requires forall y :: y in s ==> y.name != x.name
    ensures DistinctNames(InsertByMtime(s, x))
    decreases |s|
  {
    if s != [] && Mtime(s[0]) >= Mtime(x) {
      var t := InsertByMtime(s[1..], x);
      assert forall i, j :: 0 <= i < j < |s[1..]| ==> s[1..][i] == s[i + 1] && s[1..][j] == s[j + 1];
      InsertByMtimeDistinct(s[1..], x);
      InsertByMtimeElements(s[1..], x);
      forall y | y in t ensures y.name != s[0].name {
        assert y in multiset(t);
        if y != x {
          assert y in s[1..];
          var j :| 0 <= j < |s[1..]| && s[1..][j] == y;
          assert s[j + 1] == y;
        }
      }
      PrependDistinct(s[0], t);
    }
  }

  lemma PrependDistinct(h: Entry, t: seq<Entry>)
    requires DistinctNames(t)
    requires forall y :: y in t ==> y.name != h.name
    ensures DistinctNames([h] + t)
  {
    var r := [h] + t;
    forall i, j | 0 <= i < j < |r| ensures r[i].name != r[j].name {
      if i == 0 { assert r[j] in t; }
      else { assert r[i] == t[i - 1] && r[j] == t[j - 1]; }
    }
  }

  /** `sorted(entries, key=st_mtime, reverse=True)`: newest first, equal mtimes in listing order. */
  function SortByMtime(es: seq<Entry>): (r: seq<Entry>)
    ensures NewestFirst(r)
    ensures multiset(r) == multiset(es)
  {
    if es == [] then []
    else
      var k := |es| - 1;
      assert es == es[..k] + [es[k]];
      InsertByMtimeSorted(SortByMtime(es[..k]), es[k]);
      InsertByMtimeElements(SortByMtime(es[..k]), es[k]);
      InsertByMtime(SortByMtime(es[..k]), es[k])
  }

  /** The last entry's name is not among the earlier ones, which stay distinct. */
  lemma DistinctLast(es: seq<Entry>)
    requires DistinctNames(es) && es != []
    ensures DistinctNames(es[..|es| - 1])
    ensures forall y :: y in es[..|es| - 1] ==> y.name != es[|es| - 1].name
  {
    var k := |es| - 1;
    var front := es[..k];
    forall i, j | 0 <= i < j < |front| ensures front[i].name != front[j].name {
      assert front[i] == es[i] && front[j] == es[j];
    }
    forall y | y in front ensures y.name != es[k].name {
      var j :| 0 <= j < |front| && front[j] == y;
      assert es[j] == y;
    }
  }

  /** Sorting brings in no new entry, so a name absent before stays absent. */
  lemma SortedApart(es: seq<Entry>, x: Entry)
    requires forall y :: y in es ==> y.name != x.name
    ensures forall y :: y in SortByMtime(es) ==> y.name != x.name
  {
    forall y | y in SortByMtime(es) ensures y.name != x.name {
      assert y in multiset(SortByMtime(es));
      assert y in es;
    }
  }

  lemma {:induction false} SortByMtimeDistinct(es: seq<Entry>)
    requires DistinctNames(es)
    ensures DistinctNames(SortByMtime(es))
    decreases |es|
  {
    if es != [] {
      var k := |es| - 1;
      var front := es[..k];
      DistinctLast(es);
      SortByMtimeDistinct(front);
      SortedApart(front, es[k]);
      InsertByMtimeDistinct(SortByMtime(front), es[k]);
      assert SortByMtime(es) == InsertByMtime(SortByMtime(front), es[k]);
    }
  }

  /** The entries of `s` whose mtime is `t`, in their order in `s`. */
  function Ties(s: seq<Entry>, t: int): seq<Entry> {
    if s == [] then []
    else (if Mtime(s[0]) == t then [s[0]] else []) + Ties(s[1..], t)
  }

  lemma {:induction false} TiesConcat(a: seq<Entry>, b: seq<Entry>, t: int)
    ensures Ties(a + b, t) == Ties(a, t) + Ties(b, t)
    decreases |a|
  {
    if a != [] {
      assert (a + b)[0] == a[0] && (a + b)[1..] == a[1..] + b;
      TiesConcat(a[1..], b, t);
    } else {
      assert a + b == b;
    }
  }

  lemma {:induction false} TiesNone(s: seq<Entry>, t: int)
    requires forall y :: y in s ==> Mtime(y) != t
    ensures Ties(s, t) == []
    decreases |s|
  {
    if s != [] {
      assert s[0] in s;
      assert forall y :: y in s[1..] ==> y in s;
      TiesNone(s[1..], t);
    }
  }

  /** Inserting into a newest-first list puts `x` after every entry with its mtime. */
  lemma {:induction false} InsertByMtimeTies(s: seq<Entry>, x: Entry, t: int)
    requires NewestFirst(s)
    ensures Ties(InsertByMtime(s, x), t) == Ties(s, t) + (if Mtime(x) == t then [x] else [])
    decreases |s|
  {
    if s != [] {
      NewestFirstTail(s);
      var r := InsertByMtime(s, x);
      var head := if Mtime(s[0]) == t then [s[0]] else [];
      assert Ties(s, t) == head + Ties(s[1..], t);
      if Mtime(s[0]) >= Mtime(x) {
        var rest := InsertByMtime(s[1..], x);
        assert r == [s[0]] + rest && r[0] == s[0] && r[1..] == rest;
        assert Ties(r, t) == head + Ties(rest, t);
        InsertByMtimeTies(s[1..], x, t);
      } else {
        assert r == [x] + s && r[0] == x && r[1..] == s;
        if Mtime(x) == t {
          TiesNone(s, t);
        }
      }
    }
  }

  /**
   * The sort is stable: for every mtime, the entries that have it come out
   * in the order the listing gave them.
   */
  lemma {:induction false} SortByMtimeStable(es: seq<Entry>, t: int)
    ensures Ties(SortByMtime(es), t) == Ties(es, t)
    decreases |es|
  {
    if es != [] {
      var k := |es| - 1;
      var front := es[..k];
      assert es == front + [es[k]];
      SortByMtimeStable(front, t);
      InsertByMtimeTies(SortByMtime(front), es[k], t);
      TiesConcat(front, [es[k]], t);
      assert SortByMtime(es) == InsertByMtime(SortByMtime(front), es[k]);
    }
  }

  /** `[d for d in backup_dir.iterdir() if d.is_dir() and d.name.startswith(prefix)]`. */
  function Candidates(es: seq<Entry>, prefix: string): (r: seq<Entry>)
    ensures forall y :: y in r <==> y in es && y.node.Dir? && prefix <= y.name
    ensures DistinctNames(es) ==> DistinctNames(r)
  {
    if es == [] then []
    else
      var k := |es| - 1;
      assert es == es[..k] + [es[k]];
      assert DistinctNames(es) ==> forall y :: y in es[..k] ==> y.name != es[k].name by {
        if DistinctNames(es) {
          forall y | y in es[..k] ensures y.name != es[k].name {
            var j :| 0 <= j < k && es[..k][j] == y;
          }
        }
      }
      var r := Candidates(es[..k], prefix) + (if es[k].node.Dir? && prefix <= es[k].name then [es[k]] else []);
      r
  }

  // ---------------------------------------------------------------------
  // cleanup_old_backups

  /** The `backups` list of `cleanup_old_backups`: the role's backup folders, newest first. */
  function RoleBackups(es: seq<Entry>, role: RoleInfo): seq<Entry> {
    SortByMtime(Candidates(es, Prefix(role)))
  }

  /** `backups[:max_backups]`, the ones the loop leaves alone. */
  function Survivors(es: seq<Entry>, role: RoleInfo, maxBackups: int): seq<Entry> {
    Upto(RoleBackups(es, role), maxBackups)
  }

  /** `backups[max_backups:]`, the ones the loop removes. */
  function Evicted(es: seq<Entry>, role: RoleInfo, maxBackups: int): seq<Entry> {
    From(RoleBackups(es, role), maxBackups)
  }

  /** The loop `rmtree(old_backup)` over `doomed`; a failing removal is printed and skipped. */
  function RemoveEach(n: Node, dir: Path, doomed: seq<Entry>): Node {
    if doomed == [] then n
    else
      var k := |doomed| - 1;
      var m := RemoveEach(n, dir, doomed[..k]);
      match RmTree(m, dir + [doomed[k].name])
      case Ok(m') => m'
      case Err(_) => m
  }

  /** `cleanup_old_backups(role)`: raises when the backup folder cannot be listed. */
  function Cleanup(n: Node, dir: Path, maxBackups: int, role: RoleInfo): Result<Node, OsError> {
    match Lookup(n, dir)
    case None => Err(FileNotFound)
    case Some(d) =>
      if d.File? then Err(NotADirectory)
      else Ok(RemoveEach(n, dir, Evicted(d.entries, role, maxBackups)))
  }

  /** Children of one folder with different names lie apart. */
  lemma SiblingsDisjoint(dir: Path, a: string, b: string)
    requires a != b
    ensures Disjoint(dir + [a], dir + [b])
  {
    assert (dir + [a])[|dir|] == a && (dir + [b])[|dir|] == b;
  }

  /** Removing the `doomed` folders changes nothing that lies apart from all of them. */
  lemma {:induction false} RemoveEachFrame(n: Node, dir: Path, doomed: seq<Entry>, q: Path)
    requires forall i :: 0 <= i < |doomed| ==> Disjoint(dir + [doomed[i].name], q)
    ensures Lookup(RemoveEach(n, dir, doomed), q) == Lookup(n, q)
    decreases |doomed|
  {
    if doomed != [] {
      var k := |doomed| - 1;
      RemoveEachFrame(n, dir, doomed[..k], q);
      var m := RemoveEach(n, dir, doomed[..k]);
      if RmTree(m, dir + [doomed[k].name]).Ok? {
        RmTreeDisjoint(m, dir + [doomed[k].name], q);
      }
    }
  }

  /** On a well-formed disk, every doomed folder that was a directory is gone afterwards. */
  lemma {:induction false} RemoveEachGone(n: Node, dir: Path, doomed: seq<Entry>)
    requires WellFormed(n)
    requires forall i :: 0 <= i < |doomed| ==> IsDirAt(n, dir + [doomed[i].name])
    ensures WellFormed(RemoveEach(n, dir, doomed))
    ensures forall i :: 0 <= i < |doomed| ==> Lookup(RemoveEach(n, dir, doomed), dir + [doomed[i].name]) == None
    decreases |doomed|
  {
    if doomed != [] {
      var k := |doomed| - 1;
      var prev := doomed[..k];
      var p := dir + [doomed[k].name];
      RemoveEachGone(n, dir, prev);
      var m := RemoveEach(n, dir, prev);
      // before its own turn, the last folder is either already gone or untouched
      assert Lookup(m, p) == None || IsDirAt(m, p) by {
        if forall i :: 0 <= i < k ==> prev[i].name != doomed[k].name {
          forall i | 0 <= i < k ensures Disjoint(dir + [prev[i].name], p) {
            SiblingsDisjoint(dir, prev[i].name, doomed[k].name);
          }
          RemoveEachFrame(n, dir, prev, p);
        } else {
          var i :| 0 <= i < k && prev[i].name == doomed[k].name;
        }
      }
      RmTreeOk(m, p);
      if RmTree(m, p).Ok? {
        var m' := RmTree(m, p).value;
        RmTreeWellFormed(m, p);
        RmTreeBelow(m, p, p);
        forall i | 0 <= i < |doomed| ensures Lookup(m', dir + [doomed[i].name]) == None {
          if doomed[i].name != doomed[k].name {
            assert doomed[i] == prev[i];
            SiblingsDisjoint(dir, doomed[k].name, doomed[i].name);
            RmTreeDisjoint(m, p, dir + [doomed[i].name]);
          }
        }
      } else {
        forall i | 0 <= i < |doomed| ensures Lookup(m, dir + [doomed[i].name]) == None {
          if i < k { assert doomed[i] == prev[i]; }
        }
      }
    }
  }

  /** In a well-formed folder each listed entry is found under its own name. */
  lemma ChildLookup(n: Node, dir: Path, e: Entry)
    requires WellFormed(n) && IsDirAt(n, dir) && e in Listing(n, dir)
    ensures Lookup(n, dir + [e.name]) == Some(e.node)
  {
    var d := Lookup(n, dir).value;
    LookupWellFormed(n, dir);
    LookupAppend(n, dir, [e.name]);
    var k :| 0 <= k < |d.entries| && d.entries[k] == e;
    FindUnique(d.entries, k);
    LookupStep(d, [e.name]);
  }

  lemma ListingDistinct(n: Node, dir: Path)
    requires WellFormed(n) && IsDirAt(n, dir)
    ensures DistinctNames(Listing(n, dir))
  {
    LookupWellFormed(n, dir);
  }

  /** With distinct names, two listed entries with the same name are the same entry. */
  lemma SameName(es: seq<Entry>, a: Entry, b: Entry)
    requires DistinctNames(es) && a in es && b in es && a.name == b.name
    ensures a == b
  {
  }

  /** The doomed and the surviving backups are different folders. */
  lemma SurvivorsApart(es: seq<Entry>, role: RoleInfo, maxBackups: int, a: Entry, b: Entry)
    requires DistinctNames(es)
    requires a in Survivors(es, role, maxBackups) && b in Evicted(es, role, maxBackups)
    ensures a.name != b.name
  {
    var s := RoleBackups(es, role);
    SortByMtimeDistinct(Candidates(es, Prefix(role)));
    var i := SliceIndex(|s|, maxBackups);
    var x :| 0 <= x < i && s[..i][x] == a;
    var y :| 0 <= y < |s| - i && s[i..][y] == b;
    assert s[x] == a && s[i + y] == b;
  }

  /** Every survivor is at least as new as every evicted backup. */
  lemma SurvivorsNewest(es: seq<Entry>, role: RoleInfo, maxBackups: int, a: Entry, b: Entry)
    requires a in Survivors(es, role, maxBackups) && b in Evicted(es, role, maxBackups)
    ensures Mtime(a) >= Mtime(b)
  {
    var s := RoleBackups(es, role);
    var i := SliceIndex(|s|, maxBackups);
    assert Survivors(es, role, maxBackups) == s[..i] && Evicted(es, role, maxBackups) == s[i..];
    NewestSliced(s, i, a, b);
  }

  lemma NewestSliced(s: seq<Entry>, i: nat, a: Entry, b: Entry)
    requires NewestFirst(s) && i <= |s| && a in s[..i] && b in s[i..]
    ensures Mtime(a) >= Mtime(b)
  {
    var x :| 0 <= x < i && s[..i][x] == a;
    var y :| 0 <= y < |s| - i && s[i..][y] == b;
    assert s[x] == a && s[i + y] == b;
  }

  /** The role's backups are listed directories whose names carry the role's prefix. */
  lemma RoleBackupsListed(es: seq<Entry>, role: RoleInfo, e: Entry)
    ensures e in RoleBackups(es, role) <==> e in es && e.node.Dir? && Prefix(role) <= e.name
  {
    assert e in RoleBackups(es, role) <==> e in multiset(RoleBackups(es, role));
  }

  lemma SlicesCover(es: seq<Entry>, role: RoleInfo, maxBackups: int, e: Entry)
    requires e in RoleBackups(es, role)
    ensures e in Survivors(es, role, maxBackups) || e in Evicted(es, role, maxBackups)
  {
    var s := RoleBackups(es, role);
    assert Survivors(es, role, maxBackups) + Evicted(es, role, maxBackups) == s;
  }

  /**
   * `cleanup_old_backups` on a well-formed disk whose backup folder exists: the
   * evicted backups are gone, the survivors are untouched, and so is everything
   * that lies apart from the evicted folders, in particular every entry without
   * the role's prefix.
   */
  lemma CleanupEffect(n: Node, dir: Path, maxBackups: int, role: RoleInfo)
    requires WellFormed(n) && IsDirAt(n, dir)
    ensures Cleanup(n, dir, maxBackups, role).Ok?
    ensures WellFormed(Cleanup(n, dir, maxBackups, role).value)
    ensures forall e :: e in Evicted(Listing(n, dir), role, maxBackups) ==>
      Lookup(Cleanup(n, dir, maxBackups, role).value, dir + [e.name]) == None
    ensures forall e :: e in Survivors(Listing(n, dir), role, maxBackups) ==>
      Lookup(Cleanup(n, dir, maxBackups, role).value, dir + [e.name]) == Some(e.node)
    ensures forall e :: e in Listing(n, dir) && !(e.node.Dir? && Prefix(role) <= e.name) ==>
      Lookup(Cleanup(n, dir, maxBackups, role).value, dir + [e.name]) == Some(e.node)
    ensures forall q :: (forall e :: e in Evicted(Listing(n, dir), role, maxBackups) ==> Disjoint(dir + [e.name], q)) ==>
      Lookup(Cleanup(n, dir, maxBackups, role).value, q) == Lookup(n, q)
  {
    var es := Listing(n, dir);
    var doomed := Evicted(es, role, maxBackups);
    ListingDistinct(n, dir);
    forall i | 0 <= i < |doomed| ensures IsDirAt(n, dir + [doomed[i].name]) {
      var e := doomed[i];
      SlicesCover(es, role, maxBackups, e);
      assert Survivors(es, role, maxBackups) + doomed == RoleBackups(es, role);
      assert e in RoleBackups(es, role);
      RoleBackupsListed(es, role, e);
      ChildLookup(n, dir, e);
    }
    RemoveEachGone(n, dir, doomed);
    var final := RemoveEach(n, dir, doomed);
    forall e | e in doomed ensures Lookup(final, dir + [e.name]) == None {
      var i :| 0 <= i < |doomed| && doomed[i] == e;
    }
    forall q | forall e :: e in doomed ==> Disjoint(dir + [e.name], q)
      ensures Lookup(final, q) == Lookup(n, q)
    {
      RemoveEachFrame(n, dir, doomed, q);
    }
    forall a | a in Survivors(es, role, maxBackups) ensures Lookup(final, dir + [a.name]) == Some(a.node) {
      assert Survivors(es, role, maxBackups) + doomed == RoleBackups(es, role);
      assert a in RoleBackups(es, role);
      RoleBackupsListed(es, role, a);
      ChildLookup(n, dir, a);
      forall b | b in doomed ensures Disjoint(dir + [b.name], dir + [a.name]) {
        SurvivorsApart(es, role, maxBackups, a, b);
        SiblingsDisjoint(dir, b.name, a.name);
      }
      RemoveEachFrame(n, dir, doomed, dir + [a.name]);
    }
    forall a | a in es && !(a.node.Dir? && Prefix(role) <= a.name) ensures Lookup(final, dir + [a.name]) == Some(a.node) {
      ChildLookup(n, dir, a);
      forall b | b in doomed ensures Disjoint(dir + [b.name], dir + [a.name]) {
        SlicesCover(es, role, maxBackups, b);
        assert Survivors(es, role, maxBackups) + doomed == RoleBackups(es, role);
        assert b in RoleBackups(es, role);
        RoleBackupsListed(es, role, b);
        if a.name == b.name { SameName(es, a, b); }
        SiblingsDisjoint(dir, b.name, a.name);
      }
      RemoveEachFrame(n, dir, doomed, dir + [a.name]);
    }
  }

  /**
   * After the cleanup at most `max_backups` (when it is not negative) folders
   * with the role's prefix remain, and they are the survivors: the newest ones.
   */
  lemma CleanupRetains(n: Node, dir: Path, maxBackups: int, role: RoleInfo)
    requires WellFormed(n) && IsDirAt(n, dir)
    ensures Cleanup(n, dir, maxBackups, role).Ok?
    ensures forall nm :: Prefix(role) <= nm && IsDirAt(Cleanup(n, dir, maxBackups, role).value, dir + [nm]) ==>
      exists e :: e in Survivors(Listing(n, dir), role, maxBackups) && e.name == nm
    ensures maxBackups >= 0 ==> |Survivors(Listing(n, dir), role, maxBackups)| <= maxBackups
  {
    forall nm | Prefix(role) <= nm && IsDirAt(Cleanup(n, dir, maxBackups, role).value, dir + [nm])
      ensures exists e :: e in Survivors(Listing(n, dir), role, maxBackups) && e.name == nm
    {
      RetainedIsSurvivor(n, dir, maxBackups, role, nm);
    }
  }

  lemma RetainedIsSurvivor(n: Node, dir: Path, maxBackups: int, role: RoleInfo, nm: string)
    requires WellFormed(n) && IsDirAt(n, dir) && Prefix(role) <= nm
    requires Cleanup(n, dir, maxBackups, role).Ok?
    requires IsDirAt(Cleanup(n, dir, maxBackups, role).value, dir + [nm])
    ensures exists e :: e in Survivors(Listing(n, dir), role, maxBackups) && e.name == nm
  {
    var es := Listing(n, dir);
    var d := Lookup(n, dir).value;
    var doomed := Evicted(es, role, maxBackups);
    var final := RemoveEach(n, dir, doomed);
    assert final == Cleanup(n, dir, maxBackups, role).value;
    CleanupEffect(n, dir, maxBackups, role);
    forall i | 0 <= i < |doomed| ensures Disjoint(dir + [doomed[i].name], dir + [nm]) {
      assert doomed[i] in doomed;
      assert doomed[i].name != nm;
      SiblingsDisjoint(dir, doomed[i].name, nm);
    }
    RemoveEachFrame(n, dir, doomed, dir + [nm]);
    LookupAppend(n, dir, [nm]);
    LookupStep(d, [nm]);
    var k := Find(d.entries, nm);
    var e := d.entries[k];
    assert e in es && e.node.Dir?;
    RoleBackupsListed(es, role, e);
    SlicesCover(es, role, maxBackups, e);
    assert e !in doomed by {
      forall i | 0 <= i < |doomed| ensures doomed[i] != e {
        assert doomed[i] in doomed;
      }
    }
    assert e in Survivors(es, role, maxBackups);
  }

  // ---------------------------------------------------------------------
  // _get_dir_size

  /** The total size of the files below a node (the node itself included when it is a file). */
  function Size(n: Node): nat
    decreases n, 1
  {
    match n
    case File(size) => size
    case Dir(_, es) => SizeOf(es)
  }

  function SizeOf(es: seq<Entry>): nat
    decreases es, 0
  {
    if es == [] then 0 else Size(es[0].node) + SizeOf(es[1..])
  }

  /** The number of nodes in a forest, which the size walk consumes one at a time. */
  function Count(n: Node): nat
    decreases n, 1
  {
    match n
    case File(_) => 1
    case Dir(_, es) => 1 + CountOf(es)
  }

  function CountOf(es: seq<Entry>): nat
    decreases es, 0
  {
    if es == [] then 0 else Count(es[0].node) + CountOf(es[1..])
  }

  lemma {:induction false} ForestConcat(a: seq<Entry>, b: seq<Entry>)
    ensures SizeOf(a + b) == SizeOf(a) + SizeOf(b)
    ensures CountOf(a + b) == CountOf(a) + CountOf(b)
    decreases |a|
  {
    if a == [] {
      assert a + b == b;
    } else {
      assert (a + b)[0] == a[0] && (a + b)[1..] == a[1..] + b;
      ForestConcat(a[1..], b);
    }
  }

  /** What `_get_dir_size(path)` returns: nothing is found below a missing path or a file. */
  function DirSize(n: Node, p: Path): nat {
    match Lookup(n, p)
    case Some(d) => if d.Dir? then Size(d) else 0
    case None => 0
  }

  /**
   * `_get_dir_size(path)`: `rglob('*')` visits every entry below `path`, and
   * each file adds its size to `total`.
   */
  method GetDirSize(root: Node, p: Path) returns (total: nat)
    ensures total == DirSize(root, p)
  {
    total := 0;
    var found := Lookup(root, p);
    if found.None? || found.value.File? {
      return;
    }
    var pending := found.value.entries;
    while pending != []
      invariant total + SizeOf(pending) == Size(found.value)
      decreases CountOf(pending)
    {
      var entry := pending[0];
      ForestConcat([entry], pending[1..]);
      assert [entry] + pending[1..] == pending;
      match entry.node
      case File(size) =>
        total := total + size;
        pending := pending[1..];
      case Dir(_, children) =>
        ForestConcat(children, pending[1..]);
        pending := children + pending[1..];
    }
  }

  // ---------------------------------------------------------------------
  // backup_role

  /** The disk after an operation, and what the operation returned. */
  datatype Effect<R> = Effect(root: Node, result: R)

  /** The result of `backup_role`: success with `backup_path`, or the failure message. */
  datatype BackupResult =
    | BackedUp(backupPath: string)  // "backup succeeded"
    | RolePathMissing               // "role path does not exist"
    | BackupFailed(error: OsError)  // "backup failed: <exception>"

  /**
   * `backup_role(role)` at clock reading `now`: copy the role's folder to
   * `<backup_dir>/<account>_<region>_<server>_<role>_<YYYYmmdd_HHMMSS>`, then
   * run the cleanup; an exception from either is reported as a failure.
   */
  function Backup(n: Node, dir: Path, maxBackups: int, role: RoleInfo, now: Clock.Instant): Effect<BackupResult> {
    var src := Parts(role.path);
    if Lookup(n, src).None? then Effect(n, RolePathMissing)
    else
      var dst := Join(dir, BackupName(role, Clock.Stamp(now.local)));
      match CopyTree(n, src, dst, now.epoch)
      case Err(e) => Effect(n, BackupFailed(e))
      case Ok(n1) =>
        match Cleanup(n1, dir, maxBackups, role)
        case Err(e) => Effect(n1, BackupFailed(e))
        case Ok(n2) => Effect(n2, BackedUp(Render(dst)))
  }

  /** A role whose folder is missing is reported, and nothing changes. */
  lemma BackupMissingRole(n: Node, dir: Path, maxBackups: int, role: RoleInfo, now: Clock.Instant)
    requires Lookup(n, Parts(role.path)).None?
    ensures Backup(n, dir, maxBackups, role, now) == Effect(n, RolePathMissing)
  {
  }

  /** Role fields without a "/" make a backup name that is a single path component. */
  predicate PlainFields(role: RoleInfo) {
    Sep !in role.account && Sep !in role.region && Sep !in role.server && Sep !in role.role
  }

  lemma BackupNameIsName(role: RoleInfo, dt: Clock.DateTime)
    requires PlainFields(role)
    ensures IsName(BackupName(role, Clock.Stamp(dt)))
  {
    var st := Clock.Stamp(dt);
    assert forall i :: 0 <= i < |st| ==> st[i] != Sep by {
      forall i | 0 <= i < |st| ensures st[i] != Sep {
        if i != 8 { assert Clock.IsDigit(st[i]); }
      }
    }
    var name := BackupName(role, st);
    assert name == RoleKey(role) + "_" + st;
    assert name[|RoleKey(role)|] == '_';
  }

  /** What the copy step of `backup_role` leaves, before the cleanup runs. */
  lemma BackupStaged(n: Node, dir: Path, role: RoleInfo, now: Clock.Instant)
    requires WellFormed(n) && IsNormal(dir) && IsDirAt(n, dir) && IsDirAt(n, Parts(role.path)) && PlainFields(role)
    requires Lookup(n, dir + [BackupName(role, Clock.Stamp(now.local))]) == None
    ensures var name := BackupName(role, Clock.Stamp(now.local));
      var c := CopyTree(n, Parts(role.path), Join(dir, name), now.epoch);
      Join(dir, name) == dir + [name] && c.Ok? && WellFormed(c.value) && IsDirAt(c.value, dir) &&
      Listing(c.value, dir) == Listing(n, dir) + [Entry(name, Lookup(n, Parts(role.path)).value)] &&
      Lookup(c.value, dir + [name]) == Lookup(n, Parts(role.path))
  {
    var name := BackupName(role, Clock.Stamp(now.local));
    var src := Parts(role.path);
    BackupNameIsName(role, now.local);
    JoinName(dir, name);
    var d := Lookup(n, dir).value;
    LookupAppend(n, dir, [name]);
    LookupStep(d, [name]);
    PutChild(n, dir, name, Lookup(n, src).value, now.epoch);
    CopyTreeLookup(n, src, dir + [name], now.epoch, dir + [name]);
    assert forall i :: 0 <= i < |dir + [name]| ==> (dir + [name])[i] == if i < |dir| then dir[i] else name;
    CopyTreeWellFormed(n, src, dir + [name], now.epoch);
  }

  /** The new backup is a role backup listed last, so it is inserted last into the sort. */
  lemma StagedOrder(es: seq<Entry>, role: RoleInfo, e: Entry)
    requires e.node.Dir? && Prefix(role) <= e.name
    ensures RoleBackups(es + [e], role) == InsertByMtime(RoleBackups(es, role), e)
  {
    var all := es + [e];
    assert all[..|all| - 1] == es && all[|all| - 1] == e;
    var c := Candidates(all, Prefix(role));
    assert c == Candidates(es, Prefix(role)) + [e];
    assert c[..|c| - 1] == Candidates(es, Prefix(role));
  }

  /** Once the copy succeeds, `backup_role` returns the new folder's path and the disk the cleanup leaves. */
  lemma BackupCleans(n: Node, dir: Path, maxBackups: int, role: RoleInfo, now: Clock.Instant)
    requires WellFormed(n) && IsNormal(dir) && IsDirAt(n, dir) && IsDirAt(n, Parts(role.path)) && PlainFields(role)
    requires Lookup(n, dir + [BackupName(role, Clock.Stamp(now.local))]) == None
    ensures var name := BackupName(role, Clock.Stamp(now.local));
      var c := CopyTree(n, Parts(role.path), dir + [name], now.epoch);
      c.Ok? && Cleanup(c.value, dir, maxBackups, role).Ok? && Backup(n, dir, maxBackups, role, now) ==
        Effect(Cleanup(c.value, dir, maxBackups, role).value, BackedUp(Render(dir + [name])))
  {
    var name := BackupName(role, Clock.Stamp(now.local));
    var src := Parts(role.path);
    BackupStaged(n, dir, role, now);
    assert Join(dir, name) == dir + [name];
    var c := CopyTree(n, src, dir + [name], now.epoch);
    assert c.Ok? && WellFormed(c.value) && IsDirAt(c.value, dir);
    CleanupEffect(c.value, dir, maxBackups, role);
    var e := Cleanup(c.value, dir, maxBackups, role);
    assert e.Ok?;
    assert Lookup(n, src).Some?;
    calc {
      Backup(n, dir, maxBackups, role, now);
      match c
      case Err(err) => Effect(n, BackupFailed(err))
      case Ok(n1) =>
        match Cleanup(n1, dir, maxBackups, role)
        case Err(err) => Effect(n1, BackupFailed(err))
        case Ok(n2) => Effect(n2, BackedUp(Render(dir + [name])));
      Effect(e.value, BackedUp(Render(dir + [name])));
    }
  }

  /**
   * `backup_role` leaves every entry of the backup folder that is not a
   * directory with the role's prefix as it was.
   */
  lemma BackupKeepsOthers(n: Node, dir: Path, maxBackups: int, role: RoleInfo, now: Clock.Instant, e: Entry)
    requires WellFormed(n) && IsNormal(dir) && IsDirAt(n, dir) && IsDirAt(n, Parts(role.path)) && PlainFields(role)
    requires Lookup(n, dir + [BackupName(role, Clock.Stamp(now.local))]) == None
    requires e in Listing(n, dir) && !(e.node.Dir? && Prefix(role) <= e.name)
    ensures Backup(n, dir, maxBackups, role, now).result.BackedUp?
    ensures Lookup(Backup(n, dir, maxBackups, role, now).root, dir + [e.name]) == Some(e.node)
  {
    var name := BackupName(role, Clock.Stamp(now.local));
    BackupStaged(n, dir, role, now);
    BackupCleans(n, dir, maxBackups, role, now);
    var n1 := CopyTree(n, Parts(role.path), dir + [name], now.epoch).value;
    assert e in Listing(n1, dir);
    CleanupEffect(n1, dir, maxBackups, role);
  }

  /** A new role backup strictly newer than all earlier ones is the first survivor. */
  lemma NewestSurvives(es: seq<Entry>, role: RoleInfo, made: Entry, maxBackups: int)
    requires made.node.Dir? && Prefix(role) <= made.name && maxBackups >= 1
    requires forall e :: e in RoleBackups(es, role) ==> Mtime(e) < Mtime(made)
    ensures made in Survivors(es + [made], role, maxBackups)
  {
    StagedOrder(es, role, made);
    var s := RoleBackups(es, role);
    assert s == [] || Mtime(s[0]) < Mtime(made) by {
      if s != [] { assert s[0] in s; }
    }
    assert RoleBackups(es + [made], role) == [made] + s;
    assert Survivors(es + [made], role, maxBackups)[0] == made;
  }

  /** A new role backup older than some earlier one is evicted when only one is kept. */
  lemma OlderEvicted(es: seq<Entry>, role: RoleInfo, made: Entry, older: Entry)
    requires made.node.Dir? && Prefix(role) <= made.name
    requires older in RoleBackups(es, role) && Mtime(older) > Mtime(made)
    ensures made in Evicted(es + [made], role, 1)
  {
    StagedOrder(es, role, made);
    var s := RoleBackups(es, role);
    assert s != [] && older in s;
    NewestFirstTail(s);
    assert Mtime(s[0]) >= Mtime(made);
    var rest := InsertByMtime(s[1..], made);
    var all := InsertByMtime(s, made);
    assert all == [s[0]] + rest && all[1..] == rest;
    InsertByMtimeElements(s[1..], made);
    assert made in multiset(rest);
    assert Evicted(es + [made], role, 1) == all[1..];
  }

  /**
   * When the role's folder is strictly newer (by mtime) than every earlier
   * backup of the role and `max_backups` is at least 1, the folder
   * `backup_role` reports holds the role's tree afterwards.
   */
  lemma BackupSurvives(n: Node, dir: Path, maxBackups: int, role: RoleInfo, now: Clock.Instant)
    requires WellFormed(n) && IsNormal(dir) && IsDirAt(n, dir) && IsDirAt(n, Parts(role.path)) && PlainFields(role)
    requires Lookup(n, dir + [BackupName(role, Clock.Stamp(now.local))]) == None
    requires maxBackups >= 1
    requires forall e :: e in RoleBackups(Listing(n, dir), role) ==> Mtime(e) < Lookup(n, Parts(role.path)).value.mtime
    ensures var name := BackupName(role, Clock.Stamp(now.local));
      Backup(n, dir, maxBackups, role, now).result == BackedUp(Render(dir + [name])) &&
      Lookup(Backup(n, dir, maxBackups, role, now).root, dir + [name]) == Lookup(n, Parts(role.path))
  {
    var name := BackupName(role, Clock.Stamp(now.local));
    var t := Lookup(n, Parts(role.path)).value;
    BackupStaged(n, dir, role, now);
    BackupCleans(n, dir, maxBackups, role, now);
    var n1 := CopyTree(n, Parts(role.path), dir + [name], now.epoch).value;
    NewestSurvives(Listing(n, dir), role, Entry(name, t), maxBackups);
    CleanupEffect(n1, dir, maxBackups, role);
  }

  /**
   * The cleanup after a backup goes by mtime, and the copy keeps the role
   * folder's mtime: with `max_backups` 1 and an earlier backup of the role
   * newer than the role's folder, `backup_role` reports success although the
   * folder it just made has been removed again.
   */
  lemma BackupEvictsItself(n: Node, dir: Path, role: RoleInfo, now: Clock.Instant, older: Entry)
    requires WellFormed(n) && IsNormal(dir) && IsDirAt(n, dir) && IsDirAt(n, Parts(role.path)) && PlainFields(role)
    requires Lookup(n, dir + [BackupName(role, Clock.Stamp(now.local))]) == None
    requires older in RoleBackups(Listing(n, dir), role) && Mtime(older) > Lookup(n, Parts(role.path)).value.mtime
    ensures var name := BackupName(role, Clock.Stamp(now.local));
      Backup(n, dir, 1, role, now).result == BackedUp(Render(dir + [name])) &&
      Lookup(Backup(n, dir, 1, role, now).root, dir + [name]) == None
  {
    var name := BackupName(role, Clock.Stamp(now.local));
    var t := Lookup(n, Parts(role.path)).value;
    BackupStaged(n, dir, role, now);
    BackupCleans(n, dir, 1, role, now);
    var n1 := CopyTree(n, Parts(role.path), dir + [name], now.epoch).value;
    OlderEvicted(Listing(n, dir), role, Entry(name, t), older);
    CleanupEffect(n1, dir, 1, role);
  }

  // ---------------------------------------------------------------------
  // list_backups

  /**
   * The folders `list_backups(limit)` reports: every directory in the backup
   * folder, newest first, cut to `limit` when it is given and not 0; nothing
   * when the backup folder cannot be listed.
   */
  function Listed(n: Node, dir: Path, limit: Option<int>): seq<Entry> {
    match Lookup(n, dir)
    case None => []
    case Some(d) =>
      if d.File? then []
      else
        var all := SortByMtime(Candidates(d.entries, ""));
        if limit.Some? && limit.value != 0 then Upto(all, limit.value) else all
  }

  /** The `BackupInfo` of one backup folder; `localTime` is `datetime.fromtimestamp`. */
  function Describe(n: Node, dir: Path, e: Entry, localTime: int -> Clock.DateTime): BackupInfo {
    BackupInfo(e.name, Render(dir + [e.name]), DirSize(n, dir + [e.name]),
               Clock.Readable(localTime(Mtime(e))), Strings.RSplit2Head(e.name, '_'))
  }

  /** The `BackupInfo` of each folder of `es`, in order. */
  function Describes(n: Node, dir: Path, es: seq<Entry>, localTime: int -> Clock.DateTime): seq<BackupInfo> {
    seq(|es|, i requires 0 <= i < |es| => Describe(n, dir, es[i], localTime))
  }

  /** `list_backups(limit)`. */
  function Catalog(n: Node, dir: Path, limit: Option<int>, localTime: int -> Clock.DateTime): seq<BackupInfo> {
    Describes(n, dir, Listed(n, dir, limit), localTime)
  }

  /** The loop of `list_backups` over the folders it lists. */
  method DescribeFolders(root: Node, dir: Path, dirs: seq<Entry>, localTime: int -> Clock.DateTime)
    returns (backups: seq<BackupInfo>)
    ensures backups == Describes(root, dir, dirs, localTime)
  {
    backups := [];
    var i := 0;
    while i < |dirs|
      invariant 0 <= i <= |dirs|
      invariant |backups| == i
      invariant forall j :: 0 <= j < i ==> backups[j] == Describe(root, dir, dirs[j], localTime)
    {
      var e := dirs[i];
      var size := GetDirSize(root, dir + [e.name]);
      var createdAt := Clock.Readable(localTime(Mtime(e)));
      var roleInfo := Strings.RSplit2Head(e.name, '_');
      backups := backups + [BackupInfo(e.name, Render(dir + [e.name]), size, createdAt, roleInfo)];
      i := i + 1;
    }
  }

  /**
   * The folders listed are directories of the backup folder, newest first.
   * Without a limit they are all of them, each once; with a positive limit
   * they are the newest `limit` of those.
   */
  lemma ListedOrder(n: Node, dir: Path, limit: Option<int>)
    requires WellFormed(n)
    ensures NewestFirst(Listed(n, dir, limit)) && DistinctNames(Listed(n, dir, limit))
    ensures forall e :: e in Listed(n, dir, limit) ==> e in Listing(n, dir) && e.node.Dir?
    ensures limit.None? || limit.value == 0 ==>
      multiset(Listed(n, dir, limit)) == multiset(Candidates(Listing(n, dir), ""))
    ensures limit.Some? && limit.value > 0 ==>
      Listed(n, dir, limit) <= SortByMtime(Candidates(Listing(n, dir), "")) &&
      |Listed(n, dir, limit)| == if limit.value <= |Candidates(Listing(n, dir), "")| then limit.value
                                 else |Candidates(Listing(n, dir), "")|
  {
    var r := Listed(n, dir, limit);
    if IsDirAt(n, dir) {
      var es := Listing(n, dir);
      ListingDistinct(n, dir);
      var all := SortByMtime(Candidates(es, ""));
      SortByMtimeDistinct(Candidates(es, ""));
      forall e | e in all ensures e in es && e.node.Dir? {
        assert e in multiset(Candidates(es, ""));
      }
      if limit.Some? && limit.value != 0 {
        PrefixKeeps(all, r);
      }
    }
  }

  /** A prefix of a newest-first list with distinct names is one too, and holds only its elements. */
  lemma PrefixKeeps(s: seq<Entry>, r: seq<Entry>)
    requires r <= s
    ensures NewestFirst(s) ==> NewestFirst(r)
    ensures DistinctNames(s) ==> DistinctNames(r)
    ensures forall e :: e in r ==> e in s
  {
    forall a, b | 0 <= a < b < |r| ensures r[a] == s[a] && r[b] == s[b] {
    }
    forall e | e in r ensures e in s {
      var j :| 0 <= j < |r| && r[j] == e;
      assert s[j] == e;
    }
  }

  /** One `BackupInfo` per listed folder, in order, with the folder's name, path, size in bytes and mtime. */
  lemma CatalogEntries(n: Node, dir: Path, limit: Option<int>, localTime: int -> Clock.DateTime)
    requires WellFormed(n)
    ensures var r := Catalog(n, dir, limit, localTime); var es := Listed(n, dir, limit);
      |r| == |es| &&
      forall i :: 0 <= i < |r| ==>
        r[i].name == es[i].name && r[i].path == Render(dir + [es[i].name]) &&
        r[i].size == Size(es[i].node) && r[i].created_at == Clock.Readable(localTime(Mtime(es[i]))) &&
        r[i].role_info == Strings.RSplit2Head(es[i].name, '_')
  {
    var es := Listed(n, dir, limit);
    ListedOrder(n, dir, limit);
    forall i | 0 <= i < |es| ensures DirSize(n, dir + [es[i].name]) == Size(es[i].node) {
      assert es[i] in es;
      ChildLookup(n, dir, es[i]);
    }
  }

  // ---------------------------------------------------------------------
  // restore_backup and delete_backup

  /** The result of `restore_backup` and `delete_backup`. */
  datatype Outcome =
    | Done                    // "restored" / "deleted"
    | BackupMissing           // "backup does not exist"
    | Failed(error: OsError)  // "restore failed: <exception>" / "delete failed: <exception>"

  /** `restore_backup(name, target)`: replace the target role's folder by a copy of the backup. */
  function Restore(n: Node, dir: Path, name: string, target: RoleInfo, now: int): Effect<Outcome> {
    var src := Join(dir, name);
    if Lookup(n, src).None? then Effect(n, BackupMissing)
    else
      var s := ReplaceTree(n, src, Parts(target.path), now);
      Effect(s.root, if s.error.None? then Done else Failed(s.error.value))
  }

  lemma RestoreMissing(n: Node, dir: Path, name: string, target: RoleInfo, now: int)
    requires Lookup(n, Join(dir, name)).None?
    ensures Restore(n, dir, name, target, now) == Effect(n, BackupMissing)
  {
  }

  /**
   * When the backup and the target lie apart, the restore succeeds exactly
   * when the backup is a directory and the target can be written; then the
   * target holds the backup's tree, the backup is kept, and whatever lies
   * apart from the target is unchanged.
   */
  lemma RestoreCopies(n: Node, dir: Path, name: string, target: RoleInfo, now: int)
    requires WellFormed(n) && Disjoint(Join(dir, name), Parts(target.path))
    requires Lookup(n, Join(dir, name)).Some?
    ensures var e := Restore(n, dir, name, target, now);
      (e.result == Done <==> IsDirAt(n, Join(dir, name)) && Writable(n, Parts(target.path))) &&
      (e.result == Done ==> Lookup(e.root, Parts(target.path)) == Lookup(n, Join(dir, name)) &&
                            Lookup(e.root, Join(dir, name)) == Lookup(n, Join(dir, name))) &&
      WellFormed(e.root) &&
      forall q :: Disjoint(Parts(target.path), q) ==> Lookup(e.root, q) == Lookup(n, q)
  {
    var src := Join(dir, name);
    var dst := Parts(target.path);
    ReplaceTreeOk(n, src, dst, now);
    if ReplaceTree(n, src, dst, now).error == None {
      ReplaceTreeCopies(n, src, dst, now);
    }
    ReplaceTreeWellFormed(n, src, dst, now);
    forall q | Disjoint(dst, q) ensures Lookup(ReplaceTree(n, src, dst, now).root, q) == Lookup(n, q) {
      ReplaceTreeFrame(n, src, dst, now, q);
    }
  }

  /** `delete_backup(name)`: `rmtree(backup_dir / name)`. */
  function Delete(n: Node, dir: Path, name: string): Effect<Outcome> {
    var p := Join(dir, name);
    if Lookup(n, p).None? then Effect(n, BackupMissing)
    else
      match RmTree(n, p)
      case Err(e) => Effect(n, Failed(e))
      case Ok(n1) => Effect(n1, Done)
  }

  lemma DeleteMissing(n: Node, dir: Path, name: string)
    requires Lookup(n, Join(dir, name)).None?
    ensures Delete(n, dir, name) == Effect(n, BackupMissing)
  {
  }

  /**
   * Deleting an existing path succeeds exactly when it is a directory other
   * than the root; afterwards nothing is left at or below it, and whatever
   * lies apart from it is unchanged.
   */
  lemma DeleteRemoves(n: Node, dir: Path, name: string)
    requires WellFormed(n) && Lookup(n, Join(dir, name)).Some?
    ensures var e := Delete(n, dir, name); var p := Join(dir, name);
      (e.result == Done <==> p != [] && IsDirAt(n, p)) &&
      (e.result != Done ==> e.root == n) &&
      (e.result == Done ==> forall q :: p <= q ==> Lookup(e.root, q) == None) &&
      forall q :: Disjoint(p, q) ==> Lookup(e.root, q) == Lookup(n, q)
  {
    var p := Join(dir, name);
    RmTreeOk(n, p);
    if RmTree(n, p).Ok? {
      forall q | p <= q ensures Lookup(RmTree(n, p).value, q) == None {
        RmTreeBelow(n, p, q);
      }
      forall q | Disjoint(p, q) ensures Lookup(RmTree(n, p).value, q) == Lookup(n, q) {
        RmTreeDisjoint(n, p, q);
      }
    }
  }

  /** Deleting a backup folder by name drops exactly that entry from the backup folder's listing. */
  lemma DeleteEntry(n: Node, dir: Path, name: string)
    requires IsName(name) && IsDirAt(n, dir + [name])
    ensures var e := Delete(n, dir, name); var es := Listing(n, dir); var k := Find(es, name);
      e.result == Done && k < |es| && es[k].name == name &&
      IsDirAt(e.root, dir) && Listing(e.root, dir) == es[..k] + es[k + 1..]
  {
    JoinName(dir, name);
    RmTreeChild(n, dir, name);
  }

  /**
   * `backup_dir / ""` is `backup_dir` itself: `delete_backup("")` removes the
   * whole backup folder.
   */
  lemma DeleteEmptyName(n: Node, dir: Path)
    requires WellFormed(n) && dir != [] && IsDirAt(n, dir)
    ensures Delete(n, dir, "").result == Done
    ensures Lookup(Delete(n, dir, "").root, dir) == None
  {
    JoinEmpty(dir);
    RmTreeOk(n, dir);
    RmTreeBelow(n, dir, dir);
  }

  // ---------------------------------------------------------------------
  // Every operation leaves a well-formed disk

  lemma {:induction false} RemoveEachWellFormed(n: Node, dir: Path, doomed: seq<Entry>)
    requires n.Dir? && WellFormed(n)
    ensures RemoveEach(n, dir, doomed).Dir? && WellFormed(RemoveEach(n, dir, doomed))
    decreases |doomed|
  {
    if doomed != [] {
      var k := |doomed| - 1;
      RemoveEachWellFormed(n, dir, doomed[..k]);
      var m := RemoveEach(n, dir, doomed[..k]);
      if RmTree(m, dir + [doomed[k].name]).Ok? {
        RmTreeWellFormed(m, dir + [doomed[k].name]);
      }
    }
  }

  lemma CleanupWellFormed(n: Node, dir: Path, maxBackups: int, role: RoleInfo)
    requires n.Dir? && WellFormed(n)
    ensures Cleanup(n, dir, maxBackups, role).Ok? ==>
      Cleanup(n, dir, maxBackups, role).value.Dir? && WellFormed(Cleanup(n, dir, maxBackups, role).value)
  {
    var d := Lookup(n, dir);
    if d.Some? && d.value.Dir? {
      RemoveEachWellFormed(n, dir, Evicted(d.value.entries, role, maxBackups));
    }
  }

  lemma BackupWellFormed(n: Node, dir: Path, maxBackups: int, role: RoleInfo, now: Clock.Instant)
    requires n.Dir? && WellFormed(n) && IsNormal(dir)
    ensures Backup(n, dir, maxBackups, role, now).root.Dir? && WellFormed(Backup(n, dir, maxBackups, role, now).root)
  {
    var src := Parts(role.path);
    var dst := Join(dir, BackupName(role, Clock.Stamp(now.local)));
    JoinNormal(dir, BackupName(role, Clock.Stamp(now.local)));
    if Lookup(n, src).Some? && CopyTree(n, src, dst, now.epoch).Ok? {
      CopyTreeWellFormed(n, src, dst, now.epoch);
      CleanupWellFormed(CopyTree(n, src, dst, now.epoch).value, dir, maxBackups, role);
    }
  }

  lemma RestoreWellFormed(n: Node, dir: Path, name: string, target: RoleInfo, now: int)
    requires n.Dir? && WellFormed(n)
    ensures Restore(n, dir, name, target, now).root.Dir? && WellFormed(Restore(n, dir, name, target, now).root)
  {
    ReplaceTreeWellFormed(n, Join(dir, name), Parts(target.path), now);
  }

  lemma DeleteWellFormed(n: Node, dir: Path, name: string)
    requires n.Dir? && WellFormed(n)
    ensures Delete(n, dir, name).root.Dir? && WellFormed(Delete(n, dir, name).root)
  {
    var p := Join(dir, name);
    if Lookup(n, p).Some? && RmTree(n, p).Ok? {
      RmTreeWellFormed(n, p);
    }
  }

  // ---------------------------------------------------------------------
  // Backup names

  /**
   * Two backups get the same folder name only when they are of roles with
   * the same key, taken in the same second (then `copytree` refuses the second).
   */
  lemma BackupNameInjective(a: RoleInfo, da: Clock.DateTime, b: RoleInfo, db: Clock.DateTime)
    requires BackupName(a, Clock.Stamp(da)) == BackupName(b, Clock.Stamp(db))
    ensures RoleKey(a) == RoleKey(b) && da == db
  {
    var sa, sb := Clock.Stamp(da), Clock.Stamp(db);
    var name := BackupName(a, sa);
    var k := |name| - 15;
    assert name == Prefix(a) + sa == Prefix(b) + sb;
    assert name[k..] == sa && name[k..] == sb;
    assert name[..k] == Prefix(a) && name[..k] == Prefix(b);
    assert RoleKey(a) == Prefix(a)[..|Prefix(a)| - 1];
    assert RoleKey(b) == Prefix(b)[..|Prefix(b)| - 1];
    Clock.StampInjective(da, db);
  }

  /** Folders of the backup folder with different names are listed with different `path` strings. */
  lemma BackupPathsDistinct(dir: Path, a: string, b: string)
    requires IsNormal(dir) && IsName(a) && IsName(b) && a != b
    ensures Render(dir + [a]) != Render(dir + [b])
  {
    assert (dir + [a])[|dir|] == a;
    assert IsNormal(dir + [a]) && IsNormal(dir + [b]) by {
      assert forall i :: 0 <= i < |dir| ==> (dir + [a])[i] == dir[i] && (dir + [b])[i] == dir[i];
    }
    RenderInjective(dir + [a], dir + [b]);
  }

  // ---------------------------------------------------------------------
  // The manager

  /** `BackupManager`: the backup folder of one userdata folder on `disk`. */
  class BackupManager {
    const disk: FileSystem
    const userdataPath: string
    const backupDir: Path
    const maxBackups: int

    /** The disk stays well formed and the backup folder is a normal path. */
    ghost predicate Valid()
      reads this, disk
    {
      disk.Valid() && IsNormal(backupDir)
    }

    constructor Init(disk: FileSystem, userdataPath: string, backupDir: Path, maxBackups: int)
      ensures this.disk == disk && this.userdataPath == userdataPath
      ensures this.backupDir == backupDir && this.maxBackups == maxBackups
    {
      this.disk := disk;
      this.userdataPath := userdataPath;
      this.backupDir := backupDir;
      this.maxBackups := maxBackups;
    }

    /**
     * `BackupManager(userdata_path, max_backups, backup_dir)`: choose the
     * backup folder and `mkdir(parents=True, exist_ok=True)` it; the
     * constructor raises (here: no manager, an error) when that fails.
     */
    static method Open(disk: FileSystem, userdataPath: string, maxBackups: int, backupDir: Option<string>, now: int)
      returns (m: BackupManager?, error: Option<OsError>)
      requires disk.Valid()
      modifies disk
      ensures disk.Valid()
      ensures m != null ==> m.Valid()
      ensures var dir := BackupDirFor(userdataPath, backupDir);
        match MakeDirs(old(disk.root), dir, now)
        case Ok(r) => disk.root == r && error == None && m != null && fresh(m) &&
          m.disk == disk && m.userdataPath == userdataPath && m.backupDir == dir && m.maxBackups == maxBackups
        case Err(e) => disk.root == old(disk.root) && error == Some(e) && m == null
    {
      var dir := BackupDirFor(userdataPath, backupDir);
      var made := MakeDirs(disk.root, dir, now);
      if made.Ok? {
        MakeDirsWellFormed(disk.root, dir, now);
      }
      if made.Err? {
        return null, Some(made.error);
      }
      disk.root := made.value;
      m := new BackupManager.Init(disk, userdataPath, dir, maxBackups);
      error := None;
    }

    /** `backup_role(role)` at clock reading `now`. */
    method BackupRole(role: RoleInfo, now: Clock.Instant) returns (result: BackupResult)
      requires Valid()
      modifies disk
      ensures Valid()
      ensures disk.root == Backup(old(disk.root), backupDir, maxBackups, role, now).root
      ensures result == Backup(old(disk.root), backupDir, maxBackups, role, now).result
    {
      var src := Parts(role.path);
      if Lookup(disk.root, src).None? {
        return RolePathMissing;
      }
      var dst := Join(backupDir, BackupName(role, Clock.Stamp(now.local)));
      var copied := CopyTree(disk.root, src, dst, now.epoch);
      if copied.Err? {
        return BackupFailed(copied.error);
      }
      JoinNormal(backupDir, BackupName(role, Clock.Stamp(now.local)));
      CopyTreeWellFormed(disk.root, src, dst, now.epoch);
      disk.root := copied.value;
      var error := CleanupOldBackups(role);
      if error.Some? {
        return BackupFailed(error.value);
      }
      result := BackedUp(Render(dst));
    }

    /** `cleanup_old_backups(role)`: the error it raises, if any. */
    method CleanupOldBackups(role: RoleInfo) returns (error: Option<OsError>)
      requires Valid()
      modifies disk
      ensures Valid()
      ensures match Cleanup(old(disk.root), backupDir, maxBackups, role)
        case Ok(r) => disk.root == r && error == None
        case Err(e) => disk.root == old(disk.root) && error == Some(e)
    {
      CleanupWellFormed(disk.root, backupDir, maxBackups, role);
      var found := Lookup(disk.root, backupDir);
      if found.None? {
        return Some(FileNotFound);
      }
      if found.value.File? {
        return Some(NotADirectory);
      }
      var doomed := Evicted(found.value.entries, role, maxBackups);
      ghost var start := disk.root;
      var i := 0;
      while i < |doomed|
        invariant 0 <= i <= |doomed|
        invariant disk.root == RemoveEach(start, backupDir, doomed[..i])
      {
        assert doomed[..i + 1][..i] == doomed[..i];
        var removed := RmTree(disk.root, backupDir + [doomed[i].name]);
        if removed.Ok? {
          disk.root := removed.value;
        }
        i := i + 1;
      }
      assert doomed[..i] == doomed;
      error := None;
    }

    /** `list_backups(limit)`, with `localTime` for `datetime.fromtimestamp`. */
    method ListBackups(limit: Option<int>, localTime: int -> Clock.DateTime) returns (backups: seq<BackupInfo>)
      ensures backups == Catalog(disk.root, backupDir, limit, localTime)
    {
      var dirs := Listed(disk.root, backupDir, limit);
      backups := DescribeFolders(disk.root, backupDir, dirs, localTime);
    }

    /** `restore_backup(name, target)` at clock reading `now`. */
    method RestoreBackup(name: string, target: RoleInfo, now: int) returns (result: Outcome)
      requires Valid()
      modifies disk
      ensures Valid()
      ensures disk.root == Restore(old(disk.root), backupDir, name, target, now).root
      ensures result == Restore(old(disk.root), backupDir, name, target, now).result
    {
      RestoreWellFormed(disk.root, backupDir, name, target, now);
      var src := Join(backupDir, name);
      var dst := Parts(target.path);
      if Lookup(disk.root, src).None? {
        return BackupMissing;
      }
      if Lookup(disk.root, dst).Some? {
        var removed := RmTree(disk.root, dst);
        if removed.Err? {
          return Failed(removed.error);
        }
        disk.root := removed.value;
      }
      var copied := CopyTree(disk.root, src, dst, now);
      if copied.Err? {
        return Failed(copied.error);
      }
      disk.root := copied.value;
      result := Done;
    }

    /** `delete_backup(name)`. */
    method DeleteBackup(name: string) returns (result: Outcome)
      requires Valid()
      modifies disk
      ensures Valid()
      ensures disk.root == Delete(old(disk.root), backupDir, name).root
      ensures result == Delete(old(disk.root), backupDir, name).result
    {
      DeleteWellFormed(disk.root, backupDir, name);
      var p := Join(backupDir, name);
      if Lookup(disk.root, p).None? {
        return BackupMissing;
      }
      var removed := RmTree(disk.root, p);
      if removed.Err? {
        return Failed(removed.error);
      }
      disk.root := removed.value;
      result := Done;
    }
  }
}
