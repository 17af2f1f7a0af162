/**
 * backend/role_scanner.py: the four-level walk account / region / server /
 * role below the userdata directory, the distinct sorted filter values and
 * the role filter.
 */
module Scanner {
  import opened Wrappers
  import opened Paths
  import opened FsTree
  import opened Models
  import Strings

  // ---------------------------------------------------------------------
  // The walk, level by level, in `iterdir()` order

  /** The subdirectories of an account folder (the `subdirs` list of the scan). */
  function Subdirs(es: seq<Entry>): (ds: seq<Entry>)
    ensures |ds| == 0 <==> forall i :: 0 <= i < |es| ==> !es[i].node.Dir?
  {
    if es == [] then []
    else Subdirs(es[..|es| - 1]) + (if es[|es| - 1].node.Dir? then [es[|es| - 1]] else [])
  }

  /** The roles found in the server folder `base/a/r/s`, whose entries are `es`. */
  function RolesIn(base: Path, a: string, r: string, s: string, es: seq<Entry>): seq<RoleInfo>
  {
    if es == [] then []
    else
      var e := es[|es| - 1];
      RolesIn(base, a, r, s, es[..|es| - 1]) +
      (if e.node.Dir? then [RoleInfo(a, r, s, e.name, Render(base + [a, r, s, e.name]))] else [])
  }

  /** The roles found below the region folder `base/a/r`. */
  function ServerRoles(base: Path, a: string, r: string, es: seq<Entry>): seq<RoleInfo>
  {
    if es == [] then []
    else
      var e := es[|es| - 1];
      ServerRoles(base, a, r, es[..|es| - 1]) +
      (if e.node.Dir? then RolesIn(base, a, r, e.name, e.node.entries) else [])
  }

  /** The roles found below the account folder `base/a`. */
  function RegionRoles(base: Path, a: string, es: seq<Entry>): seq<RoleInfo>
  {
    if es == [] then []
    else
      var e := es[|es| - 1];
      RegionRoles(base, a, es[..|es| - 1]) +
      (if e.node.Dir? then ServerRoles(base, a, e.name, e.node.entries) else [])
  }

  /** An account folder counts only when it has a subdirectory (otherwise it is server data). */
  predicate IsLocalAccount(e: Entry) {
    e.node.Dir? && |Subdirs(e.node.entries)| > 0
  }

  /** The roles found below the userdata folder, whose entries are `es`. */
  function AccountRoles(base: Path, es: seq<Entry>): seq<RoleInfo>
  {
    if es == [] then []
    else
      var e := es[|es| - 1];
      AccountRoles(base, es[..|es| - 1]) +
      (if IsLocalAccount(e) then RegionRoles(base, e.name, e.node.entries) else [])
  }

  /**
   * What `scan_all_roles` returns for the userdata folder at `base`: nothing when
   * it does not exist, nothing when it is a file (`iterdir` raises and the
   * exception is caught), and otherwise the walk.
   */
  function Scan(root: Node, base: Path): seq<RoleInfo> {
    match Lookup(root, base)
    case None => []
    case Some(d) => if d.File? then [] else AccountRoles(base, d.entries)
  }

  // ---------------------------------------------------------------------
  // What the walk finds: exactly one role per role folder

  predicate NoDuplicates(s: seq<RoleInfo>) {
    forall i, j :: 0 <= i < j < |s| ==> s[i] != s[j]
  }

  lemma NoDuplicatesConcat(a: seq<RoleInfo>, b: seq<RoleInfo>)
    requires NoDuplicates(a) && NoDuplicates(b)
    requires forall x :: x in a ==> x !in b
    ensures NoDuplicates(a + b)
  {
    var c := a + b;
    forall i, j | 0 <= i < j < |c|
      ensures c[i] != c[j]
    {
      if i < |a| && j >= |a| {
        assert c[i] in a && c[j] == b[j - |a|];
      } else if i >= |a| {
        assert c[i] == b[i - |a|] && c[j] == b[j - |a|];
      }
    }
  }

  /** The path of a role folder below `base`. */
  function RolePath(base: Path, x: RoleInfo): Path {
    base + [x.account, x.region, x.server, x.role]
  }

  /** A role is found in server folder `a/r/s` exactly when its folder is a directory there. */
  lemma {:induction false} RolesInExact(base: Path, a: string, r: string, s: string, es: seq<Entry>)
    requires WellFormed(Dir(0, es))
    ensures forall x :: x in RolesIn(base, a, r, s, es) <==>
      x.account == a && x.region == r && x.server == s &&
      IsDirAt(Dir(0, es), [x.role]) && x.path == Render(RolePath(base, x))
    ensures NoDuplicates(RolesIn(base, a, r, s, es))
    decreases |es|
  {
    if es != [] {
      var p, e := es[..|es| - 1], es[|es| - 1];
      assert es == p + [e];
      WellFormedLast(0, p, e);
      RolesInExact(base, a, r, s, p);
      forall x: RoleInfo
        ensures IsDirAt(Dir(0, es), [x.role]) <==>
          if x.role == e.name then e.node.Dir? else IsDirAt(Dir(0, p), [x.role])
      {
        LookupLast(0, p, e, [x.role]);
      }
      forall x | x in RolesIn(base, a, r, s, p)
        ensures x.role != e.name
      {
        LookupStep(Dir(0, p), [x.role]);
      }
      NoDuplicatesConcat(RolesIn(base, a, r, s, p),
        if e.node.Dir? then [RoleInfo(a, r, s, e.name, Render(base + [a, r, s, e.name]))] else []);
    }
  }

  /** A role is found below region folder `a/r` exactly when its server and role folders are directories. */
  lemma {:induction false} ServerRolesExact(base: Path, a: string, r: string, es: seq<Entry>)
    requires WellFormed(Dir(0, es))
    ensures forall x :: x in ServerRoles(base, a, r, es) <==>
      x.account == a && x.region == r &&
      IsDirAt(Dir(0, es), [x.server, x.role]) && x.path == Render(RolePath(base, x))
    ensures NoDuplicates(ServerRoles(base, a, r, es))
    decreases |es|
  {
    if es != [] {
      var p, e := es[..|es| - 1], es[|es| - 1];
      assert es == p + [e];
      WellFormedLast(0, p, e);
      ServerRolesExact(base, a, r, p);
      if e.node.Dir? {
        RolesInExact(base, a, r, e.name, e.node.entries);
      }
      forall x: RoleInfo
        ensures IsDirAt(Dir(0, es), [x.server, x.role]) <==>
          if x.server == e.name then e.node.Dir? && IsDirAt(Dir(0, e.node.entries), [x.role])
          else IsDirAt(Dir(0, p), [x.server, x.role])
      {
        LookupLast(0, p, e, [x.server, x.role]);
        if e.node.Dir? {
          LookupMtime(e.node.mtime, e.node.entries, [x.role]);
        }
      }
      forall x | x in ServerRoles(base, a, r, p)
        ensures x.server != e.name
      {
        LookupStep(Dir(0, p), [x.server, x.role]);
      }
      NoDuplicatesConcat(ServerRoles(base, a, r, p),
        if e.node.Dir? then RolesIn(base, a, r, e.name, e.node.entries) else []);
    }
  }

  /** A role is found below account folder `a` exactly when its region, server and role folders are directories. */
  lemma {:induction false} RegionRolesExact(base: Path, a: string, es: seq<Entry>)
    requires WellFormed(Dir(0, es))
    ensures forall x :: x in RegionRoles(base, a, es) <==>
      x.account == a &&
      IsDirAt(Dir(0, es), [x.region, x.server, x.role]) && x.path == Render(RolePath(base, x))
    ensures NoDuplicates(RegionRoles(base, a, es))
    decreases |es|
  {
    if es != [] {
      var p, e := es[..|es| - 1], es[|es| - 1];
      assert es == p + [e];
      WellFormedLast(0, p, e);
      RegionRolesExact(base, a, p);
      if e.node.Dir? {
        ServerRolesExact(base, a, e.name, e.node.entries);
      }
      forall x: RoleInfo
        ensures IsDirAt(Dir(0, es), [x.region, x.server, x.role]) <==>
          if x.region == e.name then e.node.Dir? && IsDirAt(Dir(0, e.node.entries), [x.server, x.role])
          else IsDirAt(Dir(0, p), [x.region, x.server, x.role])
      {
        LookupLast(0, p, e, [x.region, x.server, x.role]);
        if e.node.Dir? {
          LookupMtime(e.node.mtime, e.node.entries, [x.server, x.role]);
        }
      }
      forall x | x in RegionRoles(base, a, p)
        ensures x.region != e.name
      {
        LookupStep(Dir(0, p), [x.region, x.server, x.role]);
      }
      NoDuplicatesConcat(RegionRoles(base, a, p),
        if e.node.Dir? then ServerRoles(base, a, e.name, e.node.entries) else []);
    }
  }

  /**
   * A role is found below the userdata folder exactly when its four folders are
   * directories and its account folder has a subdirectory.
   */
  lemma {:induction false} AccountRolesExact(base: Path, es: seq<Entry>)
    requires WellFormed(Dir(0, es))
    ensures forall x :: x in AccountRoles(base, es) <==>
      IsDirAt(Dir(0, es), [x.account, x.region, x.server, x.role]) &&
      |Subdirs(Listing(Dir(0, es), [x.account]))| > 0 && x.path == Render(RolePath(base, x))
    ensures NoDuplicates(AccountRoles(base, es))
    decreases |es|
  {
    if es != [] {
      var p, e := es[..|es| - 1], es[|es| - 1];
      assert es == p + [e];
      WellFormedLast(0, p, e);
      AccountRolesExact(base, p);
      if e.node.Dir? {
        RegionRolesExact(base, e.name, e.node.entries);
      }
      forall x: RoleInfo
        ensures IsDirAt(Dir(0, es), [x.account, x.region, x.server, x.role]) <==>
          if x.account == e.name then e.node.Dir? && IsDirAt(Dir(0, e.node.entries), [x.region, x.server, x.role])
          else IsDirAt(Dir(0, p), [x.account, x.region, x.server, x.role])
        ensures Listing(Dir(0, es), [x.account]) ==
          if x.account == e.name then (if e.node.Dir? then e.node.entries else [])
          else Listing(Dir(0, p), [x.account])
      {
        LookupLast(0, p, e, [x.account, x.region, x.server, x.role]);
        LookupLast(0, p, e, [x.account]);
        if e.node.Dir? {
          LookupMtime(e.node.mtime, e.node.entries, [x.region, x.server, x.role]);
        }
      }
      forall x | x in AccountRoles(base, p)
        ensures x.account != e.name
      {
        LookupStep(Dir(0, p), [x.account, x.region, x.server, x.role]);
      }
      NoDuplicatesConcat(AccountRoles(base, p),
        if IsLocalAccount(e) then RegionRoles(base, e.name, e.node.entries) else []);
    }
  }

  /**
   * On a well-formed disk the scan yields exactly the role folders four levels
   * below the userdata folder whose account folder has a subdirectory, each once,
   * with its four folder names and its rendered path.
   */
  lemma ScanExact(root: Node, base: Path)
    requires WellFormed(root)
    ensures forall x :: x in Scan(root, base) <==>
      IsDirAt(root, RolePath(base, x)) &&
      |Subdirs(Listing(root, base + [x.account]))| > 0 && x.path == Render(RolePath(base, x))
    ensures NoDuplicates(Scan(root, base))
  {
    forall x: RoleInfo
      ensures Lookup(root, RolePath(base, x)) ==
        match Lookup(root, base) case None => None case Some(m) => Lookup(m, [x.account, x.region, x.server, x.role])
      ensures Lookup(root, base + [x.account]) ==
        match Lookup(root, base) case None => None case Some(m) => Lookup(m, [x.account])
    {
      LookupAppend(root, base, [x.account, x.region, x.server, x.role]);
      LookupAppend(root, base, [x.account]);
    }
    match Lookup(root, base)
    case None =>
    case Some(d) =>
      if d.Dir? {
        LookupWellFormed(root, base);
        assert WellFormed(Dir(0, d.entries));
        AccountRolesExact(base, d.entries);
        forall x: RoleInfo
          ensures Lookup(d, [x.account, x.region, x.server, x.role]) ==
            Lookup(Dir(0, d.entries), [x.account, x.region, x.server, x.role])
          ensures Lookup(d, [x.account]) == Lookup(Dir(0, d.entries), [x.account])
        {
          LookupMtime(d.mtime, d.entries, [x.account, x.region, x.server, x.role]);
          LookupMtime(d.mtime, d.entries, [x.account]);
        }
      }
  }

  /** Parsing a found role's path gives back the userdata path and its four folder names. */
  lemma ScanPaths(root: Node, base: Path, x: RoleInfo)
    requires WellFormed(root) && IsNormal(base)
    requires x in Scan(root, base)
    ensures Parts(x.path) == RolePath(base, x)
  {
    ScanExact(root, base);
    LookupNormal(root, RolePath(base, x));
    PartsRender(RolePath(base, x));
  }

  // ---------------------------------------------------------------------
  // get_accounts / get_regions / get_servers: sorted(set(...))

  datatype Field = Account | Region | Server

  function FieldOf(x: RoleInfo, f: Field): string {
    match f
    case Account => x.account
    case Region => x.region
    case Server => x.server
  }

  /** Insert `x` into a strictly ascending list unless it is already there. */
  function Insert(s: seq<string>, x: string): (t: seq<string>)
    requires Strings.StrictlyAscending(s)
    ensures Strings.StrictlyAscending(t)
    ensures forall y :: y in t <==> y in s || y == x
  {
    if s == [] then [x]
    else if x == s[0] then s
    else if Strings.Less(x, s[0]) then
      assert forall j :: 0 <= j < |s| ==> Strings.Less(x, s[j]) by {
        forall j | 0 <= j < |s| ensures Strings.Less(x, s[j]) {
          if j > 0 { Strings.LessTransitive(x, s[0], s[j]); }
        }
      }
      [x] + s
    else
      Strings.LessTotal(x, s[0]);
      var t := Insert(s[1..], x);
      assert forall y :: y in t ==> Strings.Less(s[0], y) by {
        forall y | y in t ensures Strings.Less(s[0], y) {
          if y != x {
            var j :| 0 <= j < |s[1..]| && s[1..][j] == y;
            assert s[j + 1] == y;
          }
        }
      }
      [s[0]] + t
  }

  /** `sorted(set(xs))`: the distinct values of `xs` in ascending order. */
  function SortedSet(xs: seq<string>): (t: seq<string>)
    ensures Strings.StrictlyAscending(t)
    ensures forall y :: y in t <==> y in xs
  {
    if xs == [] then []
    else
      var t := Insert(SortedSet(xs[..|xs| - 1]), xs[|xs| - 1]);
      assert xs == xs[..|xs| - 1] + [xs[|xs| - 1]];
      t
  }

  /** The values of one field over a role list, in list order. */
  function Column(roles: seq<RoleInfo>, f: Field): (vs: seq<string>)
    ensures |vs| == |roles|
    ensures forall i :: 0 <= i < |roles| ==> vs[i] == FieldOf(roles[i], f)
  {
    if roles == [] then [] else [FieldOf(roles[0], f)] + Column(roles[1..], f)
  }

  /** `get_accounts(roles)`. */
  function GetAccounts(roles: seq<RoleInfo>): (t: seq<string>)
    ensures Strings.StrictlyAscending(t)
    ensures forall y :: y in t <==> exists i :: 0 <= i < |roles| && roles[i].account == y
  {
    var t := SortedSet(Column(roles, Account));
    assert forall y :: y in Column(roles, Account) <==> exists i :: 0 <= i < |roles| && roles[i].account == y by {
      forall y | y in Column(roles, Account) ensures exists i :: 0 <= i < |roles| && roles[i].account == y {
        var i :| 0 <= i < |roles| && Column(roles, Account)[i] == y;
      }
    }
    t
  }

  /** `get_regions(roles)`. */
  function GetRegions(roles: seq<RoleInfo>): (t: seq<string>)
    ensures Strings.StrictlyAscending(t)
    ensures forall y :: y in t <==> exists i :: 0 <= i < |roles| && roles[i].region == y
  {
    var t := SortedSet(Column(roles, Region));
    assert forall y :: y in Column(roles, Region) <==> exists i :: 0 <= i < |roles| && roles[i].region == y by {
      forall y | y in Column(roles, Region) ensures exists i :: 0 <= i < |roles| && roles[i].region == y {
        var i :| 0 <= i < |roles| && Column(roles, Region)[i] == y;
      }
    }
    t
  }

  /** `get_servers(roles)`. */
  function GetServers(roles: seq<RoleInfo>): (t: seq<string>)
    ensures Strings.StrictlyAscending(t)
    ensures forall y :: y in t <==> exists i :: 0 <= i < |roles| && roles[i].server == y
  {
    var t := SortedSet(Column(roles, Server));
    assert forall y :: y in Column(roles, Server) <==> exists i :: 0 <= i < |roles| && roles[i].server == y by {
      forall y | y in Column(roles, Server) ensures exists i :: 0 <= i < |roles| && roles[i].server == y {
        var i :| 0 <= i < |roles| && Column(roles, Server)[i] == y;
      }
    }
    t
  }

  /**
   * A strictly ascending list is determined by its elements, so `sorted(set(...))`
   * is the only list with the two properties above.
   */
  lemma {:induction false} AscendingUnique(a: seq<string>, b: seq<string>)
    requires Strings.StrictlyAscending(a) && Strings.StrictlyAscending(b)
    requires forall y :: y in a <==> y in b
    ensures a == b
    decreases |a|
  {
    assert a == [] <==> b == [] by {
      if a != [] { assert a[0] in a; }
      if b != [] { assert b[0] in b; }
    }
    if a != [] {
      assert a[0] in b;
      assert b != [] && b[0] in a;
      if a[0] != b[0] {
        var i :| 0 <= i < |a| && a[i] == b[0];
        var j :| 0 <= j < |b| && b[j] == a[0];
        assert Strings.Less(a[0], a[i]) && Strings.Less(b[0], b[j]);
        Strings.LessTransitive(a[0], b[0], a[0]);
        Strings.LessIrreflexive(a[0]);
      }
      forall y ensures y in a[1..] <==> y in b[1..] {
        if y in a[1..] {
          var i :| 0 <= i < |a[1..]| && a[1..][i] == y;
          assert Strings.Less(a[0], a[i + 1]);
          Strings.LessIrreflexive(y);
          assert y == a[i + 1] && y in a && y in b;
          var j :| 0 <= j < |b| && b[j] == y;
          assert j != 0 && b[1..][j - 1] == y;
        }
        if y in b[1..] {
          var j :| 0 <= j < |b[1..]| && b[1..][j] == y;
          assert Strings.Less(b[0], b[j + 1]);
          Strings.LessIrreflexive(y);
          assert y == b[j + 1] && y in b && y in a;
          var i :| 0 <= i < |a| && a[i] == y;
          assert i != 0 && a[1..][i - 1] == y;
        }
      }
      AscendingUnique(a[1..], b[1..]);
      assert a == [a[0]] + a[1..] && b == [b[0]] + b[1..];
    }
  }

  // ---------------------------------------------------------------------
  // filter_roles

  /** A filter argument takes effect when it is truthy: given and non-empty. */
  predicate Active(f: Option<string>) {
    f.Some? && f.value != ""
  }

  /** One list comprehension `[r for r in roles if r.<field> == v]`. */
  function Keep(roles: seq<RoleInfo>, f: Field, v: string): (kept: seq<RoleInfo>)
    ensures forall x :: x in kept <==> x in roles && FieldOf(x, f) == v
  {
    if roles == [] then []
    else (if FieldOf(roles[0], f) == v then [roles[0]] else []) + Keep(roles[1..], f, v)
  }

  /** The filters a role has to pass. */
  predicate Matches(x: RoleInfo, account: Option<string>, region: Option<string>, server: Option<string>) {
    (Active(account) ==> x.account == account.value) &&
    (Active(region) ==> x.region == region.value) &&
    (Active(server) ==> x.server == server.value)
  }

  /** One `if <arg>: filtered = [...]` step of `filter_roles`. */
  function Stage(roles: seq<RoleInfo>, f: Field, arg: Option<string>): seq<RoleInfo> {
    if Active(arg) then Keep(roles, f, arg.value) else roles
  }

  /** `filter_roles(roles, account, region, server)`: the three steps in source order. */
  function FilterRoles(roles: seq<RoleInfo>, account: Option<string>, region: Option<string>, server: Option<string>): (r: seq<RoleInfo>)
    ensures forall x :: x in r <==> x in roles && Matches(x, account, region, server)
    ensures !Active(account) && !Active(region) && !Active(server) ==> r == roles
  {
    Stage(Stage(Stage(roles, Account, account), Region, region), Server, server)
  }

  /** Reference definition: a single pass keeping, in order, the roles that pass every filter. */
  function Selected(roles: seq<RoleInfo>, account: Option<string>, region: Option<string>, server: Option<string>): seq<RoleInfo> {
    if roles == [] then []
    else (if Matches(roles[0], account, region, server) then [roles[0]] else []) + Selected(roles[1..], account, region, server)
  }

  lemma {:induction false} KeepConcat(a: seq<RoleInfo>, b: seq<RoleInfo>, f: Field, v: string)
    ensures Keep(a + b, f, v) == Keep(a, f, v) + Keep(b, f, v)
    decreases |a|
  {
    if a != [] {
      var ab := a + b;
      assert ab[0] == a[0];
      assert ab[1..] == a[1..] + b;
      KeepConcat(a[1..], b, f, v);
    } else {
      assert a + b == b;
    }
  }

  lemma StageConcat(a: seq<RoleInfo>, b: seq<RoleInfo>, f: Field, arg: Option<string>)
    ensures Stage(a + b, f, arg) == Stage(a, f, arg) + Stage(b, f, arg)
  {
    if Active(arg) {
      KeepConcat(a, b, f, arg.value);
    }
  }

  lemma StageOne(x: RoleInfo, f: Field, arg: Option<string>)
    ensures Stage([x], f, arg) == if !Active(arg) || FieldOf(x, f) == arg.value then [x] else []
  {
    if Active(arg) {
      assert Keep([x], f, arg.value) == (if FieldOf(x, f) == arg.value then [x] else []) + Keep([], f, arg.value);
    }
  }

  lemma StageNone(f: Field, arg: Option<string>)
    ensures Stage([], f, arg) == []
  {
  }

  /** The three successive comprehensions select the same subsequence as the single pass. */
  lemma {:induction false} FilterRolesSelected(roles: seq<RoleInfo>, account: Option<string>, region: Option<string>, server: Option<string>)
    ensures FilterRoles(roles, account, region, server) == Selected(roles, account, region, server)
    decreases |roles|
  {
    if roles != [] {
      var x, rest := roles[0], roles[1..];
      assert roles == [x] + rest;
      FilterRolesSelected(rest, account, region, server);
      StageConcat([x], rest, Account, account);
      StageOne(x, Account, account);
      var h1 := Stage([x], Account, account);
      StageConcat(h1, Stage(rest, Account, account), Region, region);
      StageOne(x, Region, region);
      StageNone(Region, region);
      var h2 := Stage(h1, Region, region);
      StageConcat(h2, Stage(Stage(rest, Account, account), Region, region), Server, server);
      StageOne(x, Server, server);
      StageNone(Server, server);
      assert Stage(h2, Server, server) == if Matches(x, account, region, server) then [x] else [];
    }
  }

  /** `RoleScanner(userdata_path)` over the shared disk. */
  class RoleScanner {
    const disk: FileSystem
    const userdataPath: string

    constructor (disk: FileSystem, userdataPath: string)
      ensures this.disk == disk && this.userdataPath == userdataPath
    {
      this.disk := disk;
      this.userdataPath := userdataPath;
    }

    /**
     * `scan_all_roles()`: the outer loop over account folders; the three inner
     * loops of the source are the `Walk` methods below, each appending to `roles`.
     */
    method ScanAllRoles() returns (roles: seq<RoleInfo>)
      ensures roles == Scan(disk.root, Parts(userdataPath))
      ensures Lookup(disk.root, Parts(userdataPath)).None? ==> roles == []
    {
      var base := Parts(userdataPath);
      roles := [];
      var top := Lookup(disk.root, base);
      if top.None? || top.value.File? {
        return;
      }
      var accounts := top.value.entries;
      var i := 0;
      while i < |accounts|
        invariant 0 <= i <= |accounts|
        invariant roles == AccountRoles(base, accounts[..i])
      {
        var account := accounts[i];
        assert accounts[..i + 1][..i] == accounts[..i];
        if account.node.Dir? {
          var subdirs := Subdirs(account.node.entries);
          if |subdirs| > 0 {
            roles := WalkRegions(base, account.name, account.node.entries, roles);
          }
        }
        i := i + 1;
      }
      assert accounts[..i] == accounts;
    }
  }

  /** The loop over the region folders of account `a`. */
  method WalkRegions(base: Path, a: string, regions: seq<Entry>, roles: seq<RoleInfo>) returns (out: seq<RoleInfo>)
    ensures out == roles + RegionRoles(base, a, regions)
  {
    out := roles;
    var j := 0;
    while j < |regions|
      invariant 0 <= j <= |regions|
      invariant out == roles + RegionRoles(base, a, regions[..j])
    {
      var region := regions[j];
      assert regions[..j + 1][..j] == regions[..j];
      if region.node.Dir? {
        out := WalkServers(base, a, region.name, region.node.entries, out);
      }
      j := j + 1;
    }
    assert regions[..j] == regions;
  }

  /** The loop over the server folders of region `a/r`. */
  method WalkServers(base: Path, a: string, r: string, servers: seq<Entry>, roles: seq<RoleInfo>) returns (out: seq<RoleInfo>)
    ensures out == roles + ServerRoles(base, a, r, servers)
  {
    out := roles;
    var k := 0;
    while k < |servers|
      invariant 0 <= k <= |servers|
      invariant out == roles + ServerRoles(base, a, r, servers[..k])
    {
      var server := servers[k];
      assert servers[..k + 1][..k] == servers[..k];
      if server.node.Dir? {
        out := WalkRoles(base, a, r, server.name, server.node.entries, out);
      }
      k := k + 1;
    }
    assert servers[..k] == servers;
  }

  /** The loop over the role folders of server `a/r/s`, appending one `RoleInfo` per folder. */
  method WalkRoles(base: Path, a: string, r: string, s: string, folders: seq<Entry>, roles: seq<RoleInfo>) returns (out: seq<RoleInfo>)
    ensures out == roles + RolesIn(base, a, r, s, folders)
  {
    out := roles;
    var l := 0;
    while l < |folders|
      invariant 0 <= l <= |folders|
      invariant out == roles + RolesIn(base, a, r, s, folders[..l])
    {
      var folder := folders[l];
      assert folders[..l + 1][..l] == folders[..l];
      if folder.node.Dir? {
        out := out + [RoleInfo(a, r, s, folder.name, Render(base + [a, r, s, folder.name]))];
      }
      l := l + 1;
    }
    assert folders[..l] == folders;
  }
}
