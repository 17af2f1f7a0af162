/**
 * pathlib paths, POSIX flavour.  A `Path` is the list of components that
 * `pathlib.Path.parts` would give for an absolute path, without the leading
 * "/".  `Parts` is pathlib's parsing of a string and `Render` is `str(path)`.
 */
module Paths {

  const Sep: char := '/'

  type Path = seq<string>

  /** A component pathlib keeps: non-empty, no separator, not ".". */
  predicate IsName(c: string) {
    c != "" && c != "." && Sep !in c
  }

  predicate IsNormal(p: Path) {
    forall i :: 0 <= i < |p| ==> IsName(p[i])
  }

  /** Index of the first separator in `s`, or |s| when there is none. */
  function FirstSep(s: string): (k: nat)
    ensures k <= |s|
    ensures Sep !in s[..k]
    ensures k < |s| ==> s[k] == Sep
  {
    if s == [] || s[0] == Sep then 0
    else
      var k := 1 + FirstSep(s[1..]);
      assert s[..k] == [s[0]] + s[1..][..k - 1];
      k
  }

  /** `Path(s).parts` for an absolute `s`: split at "/", drop empty and "." components. */
  function Parts(s: string): (p: Path)
    ensures IsNormal(p)
    decreases |s|
  {
    if s == [] then []
    else if s[0] == Sep then Parts(s[1..])
    else
      var k := FirstSep(s);
      if s[..k] == "." then Parts(s[k..]) else [s[..k]] + Parts(s[k..])
  }

  /** `str(path)`: "/" for the root, otherwise "/c1/c2/...". */
  function Render(p: Path): string {
    if p == [] then [Sep] else RenderTail(p)
  }

  function RenderTail(p: Path): string {
    if p == [] then "" else [Sep] + p[0] + RenderTail(p[1..])
  }

  /** `dir / name`: an absolute name replaces the directory, a relative one is appended part by part. */
  function Join(dir: Path, name: string): Path {
    if |name| > 0 && name[0] == Sep then Parts(name) else dir + Parts(name)
  }

  /** `path.parent`; the root is its own parent. */
  function Parent(p: Path): (q: Path)
    ensures q <= p
    ensures p != [] ==> |q| == |p| - 1
  {
    if p == [] then [] else p[..|p| - 1]
  }

  /** Neither path lies inside the other. */
  predicate Disjoint(p: Path, q: Path) {
    !(p <= q) && !(q <= p)
  }

  lemma {:induction false} FirstSepOfName(c: string, rest: string)
    requires Sep !in c
    requires rest == [] || rest[0] == Sep
    ensures FirstSep(c + rest) == |c|
    decreases |c|
  {
    var s := c + rest;
    if c == [] {
      assert s == rest;
    } else {
      assert s[0] == c[0] && c[0] in c;
      assert s[1..] == c[1..] + rest;
      assert Sep !in c[1..] by {
        forall i | 0 <= i < |c[1..]| ensures c[1..][i] != Sep {
          assert c[1..][i] == c[i + 1];
        }
      }
      FirstSepOfName(c[1..], rest);
      assert FirstSep(s) == 1 + FirstSep(s[1..]);
    }
  }

  lemma PartsOfComponent(c: string, rest: string)
    requires IsName(c)
    requires rest == [] || rest[0] == Sep
    ensures Parts([Sep] + c + rest) == [c] + Parts(rest)
  {
    var s := [Sep] + c + rest;
    assert s[1..] == c + rest;
    FirstSepOfName(c, rest);
    assert (c + rest)[..|c|] == c;
    assert (c + rest)[|c|..] == rest;
  }

  lemma {:induction false} PartsRenderTail(p: Path)
    requires IsNormal(p)
    ensures Parts(RenderTail(p)) == p
  {
    if p != [] {
      var rest := RenderTail(p[1..]);
      assert rest == [] || rest[0] == Sep;
      assert RenderTail(p) == [Sep] + p[0] + rest;
      PartsOfComponent(p[0], rest);
      PartsRenderTail(p[1..]);
    }
  }

  /** Parsing what `str` printed gives the path back. */
  lemma PartsRender(p: Path)
    requires IsNormal(p)
    ensures Parts(Render(p)) == p
  {
    if p == [] {
      assert Parts([Sep]) == Parts([]);
    } else {
      PartsRenderTail(p);
    }
  }

  /** `str` is injective on normal paths, so comparing rendered paths compares paths. */
  lemma RenderInjective(p: Path, q: Path)
    requires IsNormal(p) && IsNormal(q)
    ensures Render(p) == Render(q) <==> p == q
  {
    if Render(p) == Render(q) {
      PartsRender(p);
      PartsRender(q);
    }
  }

  /** `dir / name` of a normal folder is normal. */
  lemma JoinNormal(dir: Path, name: string)
    requires IsNormal(dir)
    ensures IsNormal(Join(dir, name))
  {
    var q := Parts(name);
    assert forall i :: |dir| <= i < |dir + q| ==> (dir + q)[i] == q[i - |dir|];
  }

  /** Joining a plain component appends exactly that component. */
  lemma JoinName(dir: Path, name: string)
    requires IsName(name)
    ensures Join(dir, name) == dir + [name]
  {
    FirstSepOfName(name, "");
    assert name + "" == name;
    assert name[0] != Sep;
    assert name[..|name|] == name;
    assert Parts(name) == [name] + Parts(name[|name|..]);
    assert name[|name|..] == "";
  }

  /** Joining the empty name denotes the directory itself. */
  lemma JoinEmpty(dir: Path)
    ensures Join(dir, "") == dir
  {
  }
}
