/** The POSIX path helpers the sources use: `os.path.join` of two parts,
    `os.path.basename` and `os.path.splitext`. */
module Paths {
  import opened Text

  /** `os.path.join(a, b)`: an absolute `b` replaces `a`; otherwise a separator is put
      between them unless `a` is empty or already ends in one. */
  function PathJoin(a: string, b: string): string {
    if |b| > 0 && b[0] == '/' then b
    else if a == "" || a[|a| - 1] == '/' then a + b
    else a + "/" + b
  }

  /** `os.path.basename(p)`: everything after the last separator. */
  function Basename(p: string): string {
    p[RFind(p, '/') + 1..]
  }

  /** An absolute second part replaces the first; otherwise the join is the first part,
      then one separator unless the first part is empty or ends in one, then the second
      part. */
  lemma PathJoinParts(a: string, b: string)
    ensures var r := PathJoin(a, b);
      && (|b| > 0 && b[0] == '/' ==> r == b)
      && |r| >= |b| && r[|r| - |b|..] == b
      && (!(|b| > 0 && b[0] == '/') ==>
            && |a| + |b| <= |r| <= |a| + 1 + |b|
            && r[..|a|] == a
            && (a != "" ==> r[|r| - |b| - 1] == '/'))
  {
  }

  /** The basename is the longest suffix without a separator: no separator is in it, and
      the character before it, if any, is one. */
  lemma BasenameIsLastComponent(p: string)
    ensures var r := Basename(p);
      && '/' !in r
      && |r| <= |p| && p[|p| - |r|..] == r
      && (|r| < |p| ==> p[|p| - |r| - 1] == '/')
  {
    var i := RFind(p, '/');
    var r := Basename(p);
    forall j | 0 <= j < |r| ensures r[j] != '/' {
      assert r[j] == p[i + 1 + j];
    }
  }

  /** Joining a file name without separators onto any directory keeps that name as the
      last path component. */
  lemma BasenameOfJoin(dir: string, name: string)
    requires '/' !in name
    ensures Basename(PathJoin(dir, name)) == name
  {
    var p := PathJoin(dir, name);
    var i := RFind(p, '/');
    assert p[|p| - |name|..] == name;
    forall j | |p| - |name| <= j < |p| ensures p[j] != '/' {
      assert p[j] == name[j - (|p| - |name|)];
    }
    if |name| < |p| {
      assert p[|p| - |name| - 1] == '/';
    }
    assert i == |p| - |name| - 1;
  }

  /** A dot at `d` starts an extension: neither a dot nor a separator follows it, and
      some character other than a dot precedes it in the last path component (leading
      dots, as in `.bashrc`, do not count). */
  ghost predicate ExtensionAt(p: string, d: int) {
    && 0 <= d < |p| && p[d] == '.'
    && (forall j :: d < j < |p| ==> p[j] != '.' && p[j] != '/')
    && exists k :: 0 <= k < d && p[k] != '.' && p[k] != '/' && forall j :: k < j < d ==> p[j] != '/'
  }

  /** `os.path.splitext(p)`: the root and the extension. The extension starts at the last
      dot of the last path component when a non-dot character comes before that dot,
      and is empty otherwise. */
  function Splitext(p: string): (r: (string, string))
    ensures r.0 + r.1 == p
    ensures r.1 != "" ==> ExtensionAt(p, |r.0|)
    ensures r.1 == "" ==> forall d :: !ExtensionAt(p, d)
  {
    var sep := RFind(p, '/');
    var dot := RFind(p, '.');
    ExtensionIsLastDot(p);
    if dot > sep && exists k :: sep < k < dot && p[k] != '.' then
      var k :| sep < k < dot && p[k] != '.';
      assert p[dot..] != "";
      assert ExtensionAt(p, dot);
      (p[..dot], p[dot..])
    else
      (p, "")
  }

  /** An extension dot is the last dot, it lies after the last separator, and a non-dot
      character lies between the two. */
  lemma ExtensionIsLastDot(p: string)
    ensures forall d :: ExtensionAt(p, d) ==>
      && d == RFind(p, '.')
      && RFind(p, '/') < d
      && exists k :: RFind(p, '/') < k < d && p[k] != '.'
  {
    var sep, dot := RFind(p, '/'), RFind(p, '.');
    forall d | ExtensionAt(p, d)
      ensures d == dot && sep < d && exists k :: sep < k < d && p[k] != '.'
    {
      assert d <= dot;
      assert p[dot] == '.';
      var k :| 0 <= k < d && p[k] != '.' && p[k] != '/' && forall j :: k < j < d ==> p[j] != '/';
      assert sep < 0 || p[sep] == '/';
      assert sep < k < d && p[k] != '.';
    }
  }

  /** Splitting the file names of the unit tests. */
  lemma SplitextExamples()
    ensures Splitext("name") == ("name", "")
    ensures Splitext("name.ext") == ("name", ".ext")
    ensures Splitext("name.name2.ext") == ("name.name2", ".ext")
    ensures Splitext(".bashrc") == (".bashrc", "")
  {
    ExtensionIsLastDot("name.ext");
    ExtensionIsLastDot("name.name2.ext");
    assert RFind("name.ext", '.') == 4 by {
      assert "name.ext"[4] == '.';
    }
    assert ExtensionAt("name.ext", 4) by {
      assert "name.ext"[0] != '.' && "name.ext"[0] != '/';
    }
    assert "name.ext"[..4] == "name";
    assert RFind("name.name2.ext", '.') == 10 by {
      assert "name.name2.ext"[10] == '.';
    }
    assert ExtensionAt("name.name2.ext", 10) by {
      assert "name.name2.ext"[9] != '.' && "name.name2.ext"[9] != '/';
    }
    assert "name.name2.ext"[..10] == "name.name2";
    assert forall d :: ExtensionAt(".bashrc", d) ==> d == 0;
    assert forall d :: !ExtensionAt("name", d);
  }
}
