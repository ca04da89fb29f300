/** POSIX path strings and the path operations the coordinator performs, over an
    abstract file system: the set of paths that currently exist. */
module Paths {

  type Path = string

  /** A path that starts at the root. */
  predicate IsAbsolute(p: Path) {
    |p| > 0 && p[0] == '/'
  }

  /** `p` lies strictly inside the directory `dir`. */
  predicate IsUnder(p: Path, dir: Path) {
    |p| > |dir| && p[..|dir|] == dir && p[|dir|] == '/'
  }

  /** `Path(base) / rel` and `os.path.join(base, rel)`: an absolute right
      operand replaces the base, anything else is appended after a separator. */
  function JoinPath(base: Path, rel: Path): (p: Path)
    ensures IsAbsolute(rel) ==> p == rel
    ensures !IsAbsolute(rel) ==> IsUnder(p, base) && p[|base| + 1..] == rel
  {
    if IsAbsolute(rel) then rel else base + "/" + rel
  }

  /** `os.path.basename`: the part after the last separator. */
  function Basename(p: Path): (b: Path)
    ensures '/' !in b
    ensures |b| <= |p| && b == p[|p| - |b|..]
    ensures |b| < |p| ==> p[|p| - |b| - 1] == '/'
    decreases |p|
  {
    if p == [] || p[|p| - 1] == '/' then []
    else Basename(p[..|p| - 1]) + [p[|p| - 1]]
  }

  lemma {:induction false} BasenameOfJoin(dir: Path, name: Path)
    requires '/' !in name
    ensures Basename(dir + "/" + name) == name
    decreases |name|
  {
    var p := dir + "/" + name;
    if name != [] {
      var front := name[..|name| - 1];
      assert p[..|p| - 1] == dir + "/" + front;
      BasenameOfJoin(dir, front);
      assert name == front + [name[|name| - 1]];
    }
  }

  /** The components of `p` between separators (`p.split('/')`); an empty
      component stands for a leading, doubled or trailing separator. */
  function Split(p: Path): (c: seq<string>)
    ensures |c| >= 1
    decreases |p|
  {
    if p == [] then [""]
    else
      var rest := Split(p[1..]);
      if p[0] == '/' then [""] + rest else [[p[0]] + rest[0]] + rest[1..]
  }

  /** No piece of a split holds a separator, and there is more than one
      piece exactly when the path holds a separator. */
  lemma {:induction false} SplitPieces(p: Path)
    ensures NoSeparators(Split(p))
    ensures '/' in p <==> |Split(p)| > 1
    decreases |p|
  {
    if p != [] {
      var rest := Split(p[1..]);
      SplitPieces(p[1..]);
      assert p == [p[0]] + p[1..];
      if p[0] != '/' {
        var c := [[p[0]] + rest[0]] + rest[1..];
        assert Split(p) == c;
        forall k | 0 <= k < |c| ensures '/' !in c[k] {
          if k > 0 { assert c[k] == rest[k]; }
        }
      } else {
        var c := [""] + rest;
        assert Split(p) == c;
        forall k | 0 <= k < |c| ensures '/' !in c[k] {
          if k > 0 { assert c[k] == rest[k - 1]; }
        }
      }
    }
  }

  lemma {:induction false} SplitPlain(name: string)
    requires '/' !in name
    ensures Split(name) == [name]
    decreases |name|
  {
    if name != [] {
      SplitPlain(name[1..]);
      assert [name[0]] + name[1..] == name;
    }
  }

  /** Splitting `a/b` gives the components of `a` followed by those of `b`. */
  lemma {:induction false} SplitJoin(a: Path, b: Path)
    ensures Split(a + "/" + b) == Split(a) + Split(b)
    decreases |a|
  {
    var p := a + "/" + b;
    if a == [] {
      assert p[1..] == b;
    } else {
      assert p[1..] == a[1..] + "/" + b;
      SplitJoin(a[1..], b);
    }
  }

  /** Where the operating system finds a sequence of components, read
      lexically: empty and `.` components are skipped and `..` steps back out
      of the directory entered last (it is kept when there is none). */
  function Resolve(c: seq<string>): (r: seq<string>)
    decreases |c|
  {
    if c == [] then [] else Step(Resolve(c[..|c| - 1]), c[|c| - 1])
  }

  /** Resolving one more component `last` after the components `s`. */
  function Step(s: seq<string>, last: string): seq<string> {
    if last == "" || last == "." then s
    else if last == ".." then
      if s != [] && s[|s| - 1] != ".." then s[..|s| - 1] else s + [".."]
    else s + [last]
  }

  lemma ResolveSnoc(c: seq<string>, last: string)
    ensures Resolve(c + [last]) == Step(Resolve(c), last)
  {
    assert (c + [last])[..|c|] == c;
  }

  /** The place a path names once `.`, `..` and repeated separators are
      resolved. */
  function Location(p: Path): seq<string> {
    Resolve(Split(p))
  }

  /** `p` names a place strictly inside the directory `dir` once both are
      resolved; `IsUnder` is the same relation read on the text alone. */
  predicate LiesInside(p: Path, dir: Path) {
    |Location(dir)| < |Location(p)| && Location(p)[..|Location(dir)|] == Location(dir)
  }

  predicate NoParentStep(c: seq<string>) {
    forall k :: 0 <= k < |c| ==> c[k] != ".."
  }

  lemma {:induction false} ResolveAppend(a: seq<string>, b: seq<string>)
    requires NoParentStep(b)
    ensures Resolve(a + b) == Resolve(a) + Resolve(b)
    decreases |b|
  {
    if b != [] {
      var front := b[..|b| - 1];
      assert (a + b)[..|a + b| - 1] == a + front;
      assert NoParentStep(front) by {
        forall k | 0 <= k < |front| ensures front[k] != ".." {
          assert front[k] == b[k];
        }
      }
      ResolveAppend(a, front);
    } else {
      assert a + b == a;
    }
  }

  /** Joining a relative path without `..` components lands where the base
      lies, extended by that path's own components (`.` and empty ones
      dropped). */
  lemma JoinLocation(base: Path, rel: Path)
    requires !IsAbsolute(rel) && NoParentStep(Split(rel))
    ensures Location(JoinPath(base, rel)) == Location(base) + Resolve(Split(rel))
  {
    SplitJoin(base, rel);
    ResolveAppend(Split(base), Split(rel));
  }

  /** Stepping out with `..` and back in to `name` replaces the last
      directory entered. */
  lemma ResolveUpAndIn(c: seq<string>, name: string)
    requires name != "" && name != "." && name != ".."
    requires Resolve(c) != [] && Resolve(c)[|Resolve(c)| - 1] != ".."
    ensures Resolve(c + ["..", name]) == Resolve(c)[..|Resolve(c)| - 1] + [name]
  {
    ResolveSnoc(c, "..");
    ResolveSnoc(c + [".."], name);
    assert c + ["..", name] == (c + [".."]) + [name];
  }

  /** A relative path that starts with `..` steps out of the base: `base/../name`
      names `name` beside the base's last directory, not a place inside it,
      although `IsUnder` holds of the text. */
  lemma JoinParentEscapes(base: Path, name: string)
    requires '/' !in name && name != "" && name != "." && name != ".."
    requires Location(base) != [] && Location(base)[|Location(base)| - 1] != ".."
    ensures IsUnder(JoinPath(base, "../" + name), base)
    ensures Location(JoinPath(base, "../" + name)) == Location(base)[..|Location(base)| - 1] + [name]
    ensures !LiesInside(JoinPath(base, "../" + name), base)
  {
    var rel := "../" + name;
    assert Split(rel) == ["..", name] by {
      assert rel == ".." + "/" + name;
      SplitJoin("..", name);
      SplitPlain("..");
      SplitPlain(name);
    }
    var p := JoinPath(base, rel);
    assert p == base + "/" + rel;
    SplitJoin(base, rel);
    assert Split(p) == Split(base) + ["..", name];
    ResolveUpAndIn(Split(base), name);
    assert |Location(p)| == |Location(base)|;
  }

  /** The directories strictly above `p`: every proper prefix that ends just
      before a separator. `mkdir(parents=True)` on the parent of `p` makes
      exactly these exist. */
  function Ancestors(p: Path): set<Path> {
    set i | 0 < i < |p| && p[i] == '/' :: p[..i]
  }

  lemma AncestorsAreAbove(p: Path)
    ensures forall d :: d in Ancestors(p) ==> |d| < |p| && IsUnder(p, d)
  {
  }

  /** `os.makedirs(p, exist_ok=True)`, and also saving a file at `p` after
      creating its parent directories: `p` and every directory above it exist
      afterwards, and nothing else is added. */
  function Create(fs: set<Path>, p: Path): (r: set<Path>)
    ensures p in r && fs <= r && Ancestors(p) <= r
    ensures forall q :: q in r && q !in fs ==> q == p || IsUnder(p, q)
  {
    AncestorsAreAbove(p);
    fs + Ancestors(p) + {p}
  }

  /** `shutil.rmtree(dir)`: `dir` and everything inside it disappear; every
      other path stays. */
  function RemoveTree(fs: set<Path>, dir: Path): (r: set<Path>)
    ensures dir !in r && r <= fs
    ensures forall q :: q in r ==> !IsUnder(q, dir)
    ensures forall q :: q in fs && q != dir && !IsUnder(q, dir) ==> q in r
  {
    set q | q in fs && q != dir && !IsUnder(q, dir)
  }

  /** Some path exists inside `dir` (`os.listdir(dir)` is not empty). */
  predicate HasEntries(fs: set<Path>, dir: Path) {
    exists q :: q in fs && IsUnder(q, dir)
  }

  /** `rel.replace('\\', '/')`: backslashes become separators. */
  function ToPosix(s: string): (r: string)
    ensures |r| == |s| && '\\' !in r
    ensures forall i :: 0 <= i < |s| && s[i] != '\\' ==> r[i] == s[i]
    ensures forall i :: 0 <= i < |s| && s[i] == '\\' ==> r[i] == '/'
  {
    seq(|s|, i requires 0 <= i < |s| => if s[i] == '\\' then '/' else s[i])
  }

  /** A path already written with forward slashes is left as it is. */
  lemma ToPosixKeepsPosix(s: string)
    requires '\\' !in s
    ensures ToPosix(s) == s
  {
  }

  /** No component holds a separator, as for the pieces of a split. */
  predicate NoSeparators(parts: seq<string>) {
    forall k :: 0 <= k < |parts| ==> '/' !in parts[k]
  }

  /** Every component but the last is non-empty: the path the components
      came from had no leading and no doubled separator. */
  predicate NoEmptyInside(parts: seq<string>) {
    forall k :: 0 <= k < |parts| - 1 ==> parts[k] != ""
  }

  /** One step of `os.path.join`: the next component goes straight after a
      path that is empty or ends with a separator, and after a separator
      otherwise. */
  function JoinStep(path: string, b: string): string {
    if path == [] || path[|path| - 1] == '/' then path + b else path + "/" + b
  }

  /** `os.path.join(*parts)`, left to right, for components without
      separators; the result never starts at the root. */
  function JoinAll(parts: seq<string>): (r: string)
    requires |parts| >= 1
    ensures NoSeparators(parts) ==> !IsAbsolute(r)
    decreases |parts|
  {
    if |parts| == 1 then parts[0]
    else JoinStep(JoinAll(parts[..|parts| - 1]), parts[|parts| - 1])
  }

  /** The components put back with one separator between each two; it
      undoes `Split`. */
  function Joined(parts: seq<string>): string
    requires |parts| >= 1
    decreases |parts|
  {
    if |parts| == 1 then parts[0] else parts[0] + "/" + Joined(parts[1..])
  }

  /** The joined text ends as its last component does. */
  lemma {:induction false} JoinedLast(parts: seq<string>, last: string)
    requires |parts| >= 1 && last == parts[|parts| - 1] && last != ""
    ensures Joined(parts) != [] && Joined(parts)[|Joined(parts)| - 1] == last[|last| - 1]
    decreases |parts|
  {
    if |parts| > 1 {
      JoinedLast(parts[1..], last);
    }
  }

  lemma {:induction false} SplitJoined(p: Path)
    ensures Joined(Split(p)) == p
    decreases |p|
  {
    if '/' !in p {
      SplitPlain(p);
    } else {
      var i :| 0 <= i < |p| && p[i] == '/';
      var a, b := p[..i], p[i + 1..];
      assert p == a + "/" + b;
      SplitJoin(a, b);
      SplitJoined(a);
      SplitJoined(b);
      JoinedAppend(Split(a), Split(b));
    }
  }

  lemma {:induction false} JoinedAppend(x: seq<string>, y: seq<string>)
    requires |x| >= 1 && |y| >= 1
    ensures Joined(x + y) == Joined(x) + "/" + Joined(y)
    decreases |x|
  {
    assert (x + y)[1..] == x[1..] + y;
    if |x| > 1 {
      JoinedAppend(x[1..], y);
    }
  }

  /** Without empty components before the last, `os.path.join` puts exactly
      one separator between each two components. */
  lemma {:induction false} JoinAllJoined(parts: seq<string>)
    requires |parts| >= 1 && NoSeparators(parts) && NoEmptyInside(parts)
    ensures JoinAll(parts) == Joined(parts)
    decreases |parts|
  {
    var n := |parts|;
    if n > 1 {
      var front, b := parts[..n - 1], parts[n - 1];
      assert NoSeparators(front) && NoEmptyInside(front) by {
        forall k | 0 <= k < |front| ensures front[k] == parts[k] { }
      }
      JoinAllJoined(front);
      var path := Joined(front);
      var last := front[n - 2];
      assert last == parts[n - 2] && last != "" && '/' !in last;
      JoinedLast(front, last);
      JoinedAppend(front, [b]);
      assert front + [b] == parts;
    }
  }

  /** One join step moves the place on by one component, whatever the
      components `a` in front of the path. */
  lemma LocationJoinStep(a: seq<string>, path: string, b: string)
    requires '/' !in b
    ensures Resolve(a + Split(JoinStep(path, b))) == Step(Resolve(a + Split(path)), b)
  {
    SplitPlain(b);
    if path == [] {
      assert Split(path) == [""];
      assert JoinStep(path, b) == b;
      ResolveSnoc(a, "");
      ResolveSnoc(a, b);
    } else if path[|path| - 1] == '/' {
      var q := path[..|path| - 1];
      assert path == q + "/" + "";
      assert path + b == q + "/" + b;
      SplitJoin(q, "");
      SplitJoin(q, b);
      assert a + Split(path) == (a + Split(q)) + [""];
      assert a + Split(path + b) == (a + Split(q)) + [b];
      ResolveSnoc(a + Split(q), "");
      ResolveSnoc(a + Split(q), b);
    } else {
      SplitJoin(path, b);
      assert a + Split(path + "/" + b) == (a + Split(path)) + [b];
      ResolveSnoc(a + Split(path), b);
    }
  }

  /** A join whose last component is empty is empty or ends with a
      separator. */
  lemma JoinAllEndsOpen(parts: seq<string>)
    requires |parts| >= 1 && parts[|parts| - 1] == ""
    ensures JoinAll(parts) == [] || JoinAll(parts)[|JoinAll(parts)| - 1] == '/'
  {
  }

  /** `os.path.join` is never longer than the text with one separator
      between each two components, and each empty component before the last
      saves a separator. */
  lemma {:induction false} JoinAllShorter(parts: seq<string>)
    requires |parts| >= 1
    ensures |JoinAll(parts)| <= |Joined(parts)|
    ensures !NoEmptyInside(parts) ==> |JoinAll(parts)| < |Joined(parts)|
    decreases |parts|
  {
    var n := |parts|;
    if n > 1 {
      var front, b := parts[..n - 1], parts[n - 1];
      JoinAllShorter(front);
      JoinedAppend(front, [b]);
      assert front + [b] == parts;
      if !NoEmptyInside(parts) && NoEmptyInside(front) {
        var k :| 0 <= k < n - 1 && parts[k] == "";
        assert front[k] == parts[k] == "";
        JoinAllEndsOpen(front);
      }
    }
  }

  /** `os.path.join` of components lands where the components lead: its
      leading, doubled and trailing separators change the text, not the
      place, whatever the components `a` in front of it. */
  lemma {:induction false} JoinAllLocation(a: seq<string>, parts: seq<string>)
    requires |parts| >= 1 && NoSeparators(parts)
    ensures Resolve(a + Split(JoinAll(parts))) == Resolve(a + parts)
    decreases |parts|
  {
    var n := |parts|;
    if n == 1 {
      SplitPlain(parts[0]);
    } else {
      var front, b := parts[..n - 1], parts[n - 1];
      assert NoSeparators(front) by {
        forall k | 0 <= k < |front| ensures front[k] == parts[k] { }
      }
      JoinAllLocation(a, front);
      LocationJoinStep(a, JoinAll(front), b);
      assert a + parts == (a + front) + [b];
      ResolveSnoc(a + front, b);
    }
  }

  /** `os.path.join(*rel.split('/')[1:])` when there is more than one
      component, `rel` itself otherwise: the path without its first
      component. The result never starts at the root. */
  function StripFirst(rel: string): (r: string)
    ensures '/' !in rel ==> r == rel
    ensures !IsAbsolute(r)
  {
    var parts := Split(rel);
    SplitPieces(rel);
    assert NoSeparators(parts[1..]) by {
      forall k | 0 <= k < |parts| - 1 ensures parts[1..][k] == parts[k + 1] { }
    }
    if |parts| > 1 then JoinAll(parts[1..]) else rel
  }

  /** Stripping the first component of `top/rest` leads to where `rest`
      leads, and gives `rest` back letter for letter exactly when `rest` has
      no leading or doubled separator. */
  lemma StripFirstComponent(top: string, rest: string)
    requires '/' !in top
    ensures Location(StripFirst(top + "/" + rest)) == Location(rest)
    ensures NoEmptyInside(Split(rest)) ==> StripFirst(top + "/" + rest) == rest
    ensures !NoEmptyInside(Split(rest)) ==> StripFirst(top + "/" + rest) != rest
  {
    SplitJoin(top, rest);
    SplitPlain(top);
    assert Split(top + "/" + rest)[1..] == Split(rest);
    SplitPieces(top + "/" + rest);
    SplitPieces(rest);
    JoinAllLocation([], Split(rest));
    assert [] + Split(rest) == Split(rest);
    assert [] + Split(StripFirst(top + "/" + rest)) == Split(StripFirst(top + "/" + rest));
    SplitJoined(rest);
    if NoEmptyInside(Split(rest)) {
      JoinAllJoined(Split(rest));
    } else {
      JoinAllShorter(Split(rest));
    }
  }
}
