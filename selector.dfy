/**
 * The role-selection logic of the front end's role selector
 * (frontend/src/components/RoleSelector.jsx): the handlers compute the new
 * source role and target list from the current ones, and the two role lists
 * the selector shows are filters over the scanned roles.  A handler is
 * modelled as a function from the selector's state to its next state; the
 * React setters that publish it are not modelled.
 */
module Selector {
  import opened Wrappers
  import opened Models
  import Strings

  /** The state the handlers read and set: the source search text, the source role and the target roles. */
  datatype Selection = Selection(sourceSearch: string, source: Option<RoleInfo>, targets: seq<RoleInfo>)

  /** The account/region/server filters of the target list; "" means no filter. */
  datatype Filters = Filters(account: string, region: string, server: string)

  /** `role.role.toLowerCase().includes(search.toLowerCase())` */
  predicate NameMatches(role: RoleInfo, search: string) {
    Strings.Contains(Strings.Lower(role.role), Strings.Lower(search))
  }

  /** `roleDisplay(role)`: the same label as the back end's `str(role)`. */
  function RoleDisplay(role: RoleInfo): (s: string)
    ensures s == role.Display()
  {
    role.account + "-" + role.region + "-" + role.server + "-" + role.role
  }

  /** `roles.filter(role => role.role.toLowerCase().includes(search.toLowerCase()))` */
  function NameFilter(roles: seq<RoleInfo>, search: string): (r: seq<RoleInfo>)
    ensures forall x :: x in r <==> x in roles && NameMatches(x, search)
    ensures IsSubsequence(r, roles)
  {
    if roles == [] then []
    else
      var k := |roles| - 1;
      var front := NameFilter(roles[..k], search);
      assert roles == roles[..k] + [roles[k]];
      if NameMatches(roles[k], search) then front + [roles[k]] else front
  }

  /** `targets.filter(t => t.path !== path)` */
  function WithoutPath(targets: seq<RoleInfo>, path: string): (r: seq<RoleInfo>)
    ensures forall x :: x in r <==> x in targets && x.path != path
    ensures IsSubsequence(r, targets)
  {
    if targets == [] then []
    else
      var k := |targets| - 1;
      var front := WithoutPath(targets[..k], path);
      assert targets == targets[..k] + [targets[k]];
      if targets[k].path != path then front + [targets[k]] else front
  }

  /** `a` is `b` with some elements left out, the rest in their order. */
  predicate IsSubsequence(a: seq<RoleInfo>, b: seq<RoleInfo>)
    decreases |b|
  {
    if a == [] then true
    else if b == [] then false
    else
      (a[|a| - 1] == b[|b| - 1] && IsSubsequence(a[..|a| - 1], b[..|b| - 1])) ||
      IsSubsequence(a, b[..|b| - 1])
  }

  /** The first role whose name matches, and no earlier one. */
  function FirstMatch(roles: seq<RoleInfo>, search: string): (r: Option<nat>)
    ensures r.Some? ==> r.value < |roles| && NameMatches(roles[r.value], search)
    ensures r.Some? ==> forall j :: 0 <= j < r.value ==> !NameMatches(roles[j], search)
    ensures r.None? <==> NameFilter(roles, search) == []
  {
    var f := NameFilter(roles, search);
    if f == [] then None
    else
      assert f[0] in f;
      var i := FirstIndex(roles, search, f[0]);
      Some(i)
  }

  function FirstIndex(roles: seq<RoleInfo>, search: string, x: RoleInfo): (i: nat)
    requires x in roles && NameMatches(x, search)
    ensures i < |roles| && NameMatches(roles[i], search)
    ensures forall j :: 0 <= j < i ==> !NameMatches(roles[j], search)
  {
    if NameMatches(roles[0], search) then 0
    else
      var i := FirstIndex(roles[1..], search, x);
      assert forall j :: 1 <= j <= i ==> roles[j] == roles[1..][j - 1];
      i + 1
  }

  /**
   * `handleSourceSearchChange`: record the text; a non-empty text that some
   * role's name contains makes the first such role the source and drops it
   * from the targets.
   */
  function SearchSource(roles: seq<RoleInfo>, s: Selection, search: string): Selection {
    if search == [] then s.(sourceSearch := search)
    else
      var filtered := NameFilter(roles, search);
      if filtered == [] then s.(sourceSearch := search)
      else
        var first := filtered[0];
        Selection(search, Some(first), WithoutPath(s.targets, first.path))
  }

  /**
   * `handleSourceChange`: the role of the chosen path becomes the source
   * (none when no role has it) and is dropped from the targets.
   */
  function ChooseSource(roles: seq<RoleInfo>, s: Selection, path: string): Selection {
    match FindPath(roles, path)
    case None => s.(source := None)
    case Some(i) => s.(source := Some(roles[i]), targets := WithoutPath(s.targets, roles[i].path))
  }

  /** `roles.find(r => r.path === path)`, as an index. */
  function FindPath(roles: seq<RoleInfo>, path: string): (r: Option<nat>)
    ensures r.Some? ==> r.value < |roles| && roles[r.value].path == path
    ensures r.Some? ==> forall j :: 0 <= j < r.value ==> roles[j].path != path
    ensures r.None? ==> forall j :: 0 <= j < |roles| ==> roles[j].path != path
  {
    if roles == [] then None
    else if roles[0].path == path then Some(0)
    else
      match FindPath(roles[1..], path)
      case None => None
      case Some(i) =>
        assert forall j :: 1 <= j <= i ==> roles[j] == roles[1..][j - 1];
        Some(i + 1)
  }

  predicate IsSelected(targets: seq<RoleInfo>, role: RoleInfo) {
    exists t :: t in targets && t.path == role.path
  }

  /**
   * `handleTargetToggle(role, e)`: a right click, or a click on the source,
   * changes nothing; otherwise a selected role (by path) is dropped and an
   * unselected one appended.
   */
  function Toggle(s: Selection, role: RoleInfo, rightClick: bool): Selection {
    if rightClick then s
    else if s.source.Some? && role.path == s.source.value.path then s
    else if IsSelected(s.targets, role) then s.(targets := WithoutPath(s.targets, role.path))
    else s.(targets := s.targets + [role])
  }

  /** `filteredSourceRoles`. */
  function SourceCandidates(roles: seq<RoleInfo>, sourceSearch: string): seq<RoleInfo> {
    if sourceSearch == [] then roles else NameFilter(roles, sourceSearch)
  }

  /** What `filteredTargetRoles` keeps of one role. */
  predicate TargetMatches(role: RoleInfo, f: Filters, search: string, source: Option<RoleInfo>) {
    (f.account == [] || role.account == f.account) &&
    (f.region == [] || role.region == f.region) &&
    (f.server == [] || role.server == f.server) &&
    (search == [] || NameMatches(role, search)) &&
    !(source.Some? && role.path == source.value.path)
  }

  /** `filteredTargetRoles`. */
  function TargetCandidates(roles: seq<RoleInfo>, f: Filters, search: string, source: Option<RoleInfo>): seq<RoleInfo> {
    if roles == [] then []
    else
      var k := |roles| - 1;
      var front := TargetCandidates(roles[..k], f, search, source);
      if TargetMatches(roles[k], f, search, source) then front + [roles[k]] else front
  }

  // ---------------------------------------------------------------------
  // Properties

  /** The paths of `targets` are pairwise distinct. */
  predicate DistinctPaths(targets: seq<RoleInfo>) {
    forall i, j :: 0 <= i < j < |targets| ==> targets[i].path != targets[j].path
  }

  /** Choosing a source leaves no target with its path, and drops nothing else. */
  lemma ChooseSourceExcludes(roles: seq<RoleInfo>, s: Selection, path: string)
    ensures var r := ChooseSource(roles, s, path);
      r.sourceSearch == s.sourceSearch &&
      (r.source.Some? <==> exists i :: 0 <= i < |roles| && roles[i].path == path) &&
      (r.source.Some? ==> r.source.value in roles && r.source.value.path == path &&
                          forall t :: t in r.targets <==> t in s.targets && t.path != path) &&
      (r.source.None? ==> r.targets == s.targets)
  {
    var r := ChooseSource(roles, s, path);
    if r.source.Some? {
      var i := FindPath(roles, path).value;
      assert roles[i] in roles;
    }
  }

  /**
   * An empty search text, or one that no role's name contains, changes
   * only the recorded text; otherwise the first matching role becomes the
   * source and no target keeps its path.
   */
  lemma SearchSourceEffect(roles: seq<RoleInfo>, s: Selection, search: string)
    ensures var r := SearchSource(roles, s, search);
      r.sourceSearch == search &&
      (search == [] || FirstMatch(roles, search).None? ==> r.source == s.source && r.targets == s.targets) &&
      (search != [] && FirstMatch(roles, search).Some? ==>
        r.source == Some(roles[FirstMatch(roles, search).value]) &&
        forall t :: t in r.targets <==> t in s.targets && t.path != r.source.value.path)
  {
    if search != [] && FirstMatch(roles, search).Some? {
      var f := NameFilter(roles, search);
      var i := FirstMatch(roles, search).value;
      assert f[0] in f;
      var j :| 0 <= j < |roles| && roles[j] == f[0];
      FirstOfFilter(roles, search);
      assert f[0] == roles[i];
    }
  }

  /** The first element of the filtered list is the role at the first matching index. */
  lemma {:induction false} FirstOfFilter(roles: seq<RoleInfo>, search: string)
    requires NameFilter(roles, search) != []
    ensures FirstMatch(roles, search).Some?
    ensures NameFilter(roles, search)[0] == roles[FirstMatch(roles, search).value]
    decreases |roles|
  {
    var k := |roles| - 1;
    var front := NameFilter(roles[..k], search);
    var i := FirstMatch(roles, search).value;
    if front == [] {
      assert NameFilter(roles, search) == [roles[k]];
      assert forall j :: 0 <= j < k ==> !NameMatches(roles[j], search) by {
        forall j | 0 <= j < k ensures !NameMatches(roles[j], search) {
          assert roles[j] == roles[..k][j];
          assert roles[..k][j] !in front;
        }
      }
      assert i == k;
    } else {
      FirstOfFilter(roles[..k], search);
      var i' := FirstMatch(roles[..k], search).value;
      assert roles[..k][i'] == roles[i'];
      assert forall j :: 0 <= j < i' ==> roles[..k][j] == roles[j];
      assert i == i';
    }
  }

  /** A right click, or a click on the source role, leaves the selection as it was. */
  lemma ToggleIgnored(s: Selection, role: RoleInfo, rightClick: bool)
    requires rightClick || (s.source.Some? && role.path == s.source.value.path)
    ensures Toggle(s, role, rightClick) == s
  {
  }

  /** Toggling appends an unselected role at the end and removes every entry with a selected role's path. */
  lemma ToggleEffect(s: Selection, role: RoleInfo)
    requires !(s.source.Some? && role.path == s.source.value.path)
    ensures var r := Toggle(s, role, false);
      r.sourceSearch == s.sourceSearch && r.source == s.source &&
      (!IsSelected(s.targets, role) ==> r.targets == s.targets + [role]) &&
      (IsSelected(s.targets, role) ==>
        IsSubsequence(r.targets, s.targets) && |r.targets| < |s.targets| &&
        forall t :: t in r.targets <==> t in s.targets && t.path != role.path)
  {
    if IsSelected(s.targets, role) {
      var t :| t in s.targets && t.path == role.path;
      WithoutPathShorter(s.targets, role.path, t);
    }
  }

  lemma {:induction false} WithoutPathShorter(targets: seq<RoleInfo>, path: string, t: RoleInfo)
    requires t in targets && t.path == path
    ensures |WithoutPath(targets, path)| < |targets|
    decreases |targets|
  {
    WithoutPathAtMost(targets, path);
    var k := |targets| - 1;
    if targets[k] != t {
      assert t in targets[..k] by { assert targets == targets[..k] + [targets[k]]; }
      WithoutPathShorter(targets[..k], path, t);
    } else {
      WithoutPathAtMost(targets[..k], path);
    }
  }

  lemma {:induction false} WithoutPathAtMost(targets: seq<RoleInfo>, path: string)
    ensures |WithoutPath(targets, path)| <= |targets|
    decreases |targets|
  {
    if targets != [] {
      WithoutPathAtMost(targets[..|targets| - 1], path);
    }
  }

  /** Dropping a path no target has changes nothing. */
  lemma {:induction false} WithoutAbsentPath(targets: seq<RoleInfo>, path: string)
    requires forall t :: t in targets ==> t.path != path
    ensures WithoutPath(targets, path) == targets
    decreases |targets|
  {
    if targets != [] {
      var k := |targets| - 1;
      assert targets == targets[..k] + [targets[k]];
      WithoutAbsentPath(targets[..k], path);
    }
  }

  /** Toggling the same unselected, non-source role twice restores the selection. */
  lemma ToggleTwice(s: Selection, role: RoleInfo)
    requires !(s.source.Some? && role.path == s.source.value.path)
    requires !IsSelected(s.targets, role)
    ensures Toggle(Toggle(s, role, false), role, false) == s
  {
    var added := s.targets + [role];
    assert IsSelected(added, role) by { assert role in added; }
    var k := |added| - 1;
    assert added[..k] == s.targets;
    WithoutAbsentPath(s.targets, role.path);
  }

  /** Toggling keeps the target paths pairwise distinct. */
  lemma ToggleDistinct(s: Selection, role: RoleInfo, rightClick: bool)
    requires DistinctPaths(s.targets)
    ensures DistinctPaths(Toggle(s, role, rightClick).targets)
  {
    if !rightClick && !(s.source.Some? && role.path == s.source.value.path) {
      if IsSelected(s.targets, role) {
        SubsequenceDistinct(WithoutPath(s.targets, role.path), s.targets);
      } else {
        var r := s.targets + [role];
        forall i, j | 0 <= i < j < |r| ensures r[i].path != r[j].path {
          if j == |r| - 1 {
            assert r[i] in s.targets;
          }
        }
      }
    }
  }

  /** A subsequence of a list with distinct paths has distinct paths. */
  lemma {:induction false} SubsequenceDistinct(a: seq<RoleInfo>, b: seq<RoleInfo>)
    requires IsSubsequence(a, b) && DistinctPaths(b)
    ensures DistinctPaths(a)
    decreases |b|
  {
    if a != [] {
      var b' := b[..|b| - 1];
      assert DistinctPaths(b');
      if a[|a| - 1] == b[|b| - 1] && IsSubsequence(a[..|a| - 1], b') {
        var a' := a[..|a| - 1];
        SubsequenceDistinct(a', b');
        SubsequenceElements(a', b');
        forall i, j | 0 <= i < j < |a| ensures a[i].path != a[j].path {
          if j == |a| - 1 {
            assert a[i] == a'[i];
            assert a'[i] in b';
            var m :| 0 <= m < |b'| && b'[m] == a[i];
            assert b[m] == b'[m];
          } else {
            assert a[i] == a'[i] && a[j] == a'[j];
          }
        }
      } else {
        SubsequenceDistinct(a, b');
      }
    }
  }

  lemma {:induction false} SubsequenceElements(a: seq<RoleInfo>, b: seq<RoleInfo>)
    requires IsSubsequence(a, b)
    ensures forall x :: x in a ==> x in b
    decreases |b|
  {
    if a != [] {
      var b' := b[..|b| - 1];
      assert b == b' + [b[|b| - 1]];
      if a[|a| - 1] == b[|b| - 1] && IsSubsequence(a[..|a| - 1], b') {
        SubsequenceElements(a[..|a| - 1], b');
        assert a == a[..|a| - 1] + [a[|a| - 1]];
      } else {
        SubsequenceElements(a, b');
      }
    }
  }

  /** Every list is a subsequence of itself with one more element at the end. */
  lemma {:induction false} SubsequenceSnoc(a: seq<RoleInfo>, b: seq<RoleInfo>, x: RoleInfo)
    requires IsSubsequence(a, b)
    ensures IsSubsequence(a, b + [x])
    ensures IsSubsequence(a + [x], b + [x])
  {
    assert (b + [x])[..|b|] == b;
    assert (a + [x])[..|a|] == a;
  }

  /**
   * `filteredTargetRoles` keeps, in order, exactly the roles that pass every
   * non-empty filter, contain the search text (ignoring ASCII case) and are
   * not the source role.
   */
  lemma {:induction false} TargetCandidatesExact(roles: seq<RoleInfo>, f: Filters, search: string, source: Option<RoleInfo>)
    ensures var r := TargetCandidates(roles, f, search, source);
      IsSubsequence(r, roles) &&
      forall x :: x in r <==> x in roles && TargetMatches(x, f, search, source)
    decreases |roles|
  {
    if roles != [] {
      var k := |roles| - 1;
      var front := TargetCandidates(roles[..k], f, search, source);
      TargetCandidatesExact(roles[..k], f, search, source);
      assert roles == roles[..k] + [roles[k]];
      SubsequenceSnoc(front, roles[..k], roles[k]);
    }
  }

  /** No role with the source's path is ever a target candidate. */
  lemma SourceNeverCandidate(roles: seq<RoleInfo>, f: Filters, search: string, source: RoleInfo)
    ensures forall x :: x in TargetCandidates(roles, f, search, Some(source)) ==> x.path != source.path
  {
    TargetCandidatesExact(roles, f, search, Some(source));
  }

  /** `filteredSourceRoles` is every role without a search text, the name matches with one. */
  lemma SourceCandidatesExact(roles: seq<RoleInfo>, sourceSearch: string)
    ensures IsSubsequence(SourceCandidates(roles, sourceSearch), roles)
    ensures forall x :: x in SourceCandidates(roles, sourceSearch) <==>
      x in roles && (sourceSearch == [] || NameMatches(x, sourceSearch))
  {
    if sourceSearch == [] {
      SubsequenceRefl(roles);
    }
  }

  lemma {:induction false} SubsequenceRefl(a: seq<RoleInfo>)
    ensures IsSubsequence(a, a)
    decreases |a|
  {
    if a != [] {
      SubsequenceRefl(a[..|a| - 1]);
    }
  }
}
