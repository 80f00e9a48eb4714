/** POSIX path joining (`os.path.join`, which is `posixpath.join` on the
    systems the plugins run on) and the last-component split. */
module Paths {
  import Text

  /** `posixpath.join(a, b)`: an absolute `b` replaces `a`; otherwise `b` is
      appended, with a '/' in between unless `a` is empty or already ends
      with one. */
  function Join2(a: string, b: string): (r: string)
    ensures |b| > 0 && b[0] == '/' ==> r == b
  {
    if |b| > 0 && b[0] == '/' then b
    else if |a| == 0 || a[|a| - 1] == '/' then a + b
    else a + "/" + b
  }

  /** `os.path.join(parts[0], parts[1], ...)`. */
  function Join(parts: seq<string>): string
    requires |parts| >= 1
    decreases |parts|
  {
    if |parts| == 1 then parts[0]
    else Join2(Join(parts[..|parts| - 1]), parts[|parts| - 1])
  }

  /** A non-empty component with no '/' in it: one directory or file name. */
  predicate Plain(c: string) {
    |c| > 0 && '/' !in c
  }

  /** When every component is a plain name, joining is concatenation with '/'
      separators. This is the reference form the cache paths are stated in. */
  lemma {:induction false} JoinPlain(parts: seq<string>)
    requires |parts| >= 1
    requires forall k :: 0 <= k < |parts| ==> Plain(parts[k])
    ensures Join(parts) == Text.Join(parts, "/")
    decreases |parts|
  {
    if |parts| > 1 {
      var init := parts[..|parts| - 1];
      JoinPlain(init);
      JoinSnoc(init, parts[|parts| - 1], "/");
      assert init + [parts[|parts| - 1]] == parts;
    }
  }

  lemma {:induction false} JoinSnoc(parts: seq<string>, x: string, sep: string)
    requires |parts| >= 1
    ensures Text.Join(parts + [x], sep) == Text.Join(parts, sep) + sep + x
    decreases |parts|
  {
    if |parts| > 1 {
      JoinSnoc(parts[1..], x, sep);
      assert (parts + [x])[1..] == parts[1..] + [x];
    } else {
      assert (parts + [x])[1..] == [x];
    }
  }

  /** Joining two plain names puts one '/' between them. */
  lemma JoinTwo(x: string, y: string)
    requires Plain(x) && Plain(y)
    ensures Join([x, y]) == x + "/" + y
  {
    assert [x, y][..1] == [x];
    assert x[|x| - 1] in x && y[0] in y;
  }

  /** Joining three plain names puts one '/' between each. */
  lemma JoinThree(x: string, y: string, z: string)
    requires Plain(x) && Plain(y) && Plain(z)
    ensures Join([x, y, z]) == x + "/" + y + "/" + z
  {
    assert [x, y, z][..2] == [x, y];
    JoinTwo(x, y);
    assert z[0] in z;
  }

  /** Joining a directory that ends in a plain name and a relative name
      puts one '/' between them. */
  lemma JoinUnder(dir: string, last: string, name: string)
    requires Plain(last) && |name| > 0 && name[0] != '/'
    ensures Join2(dir + last, name) == dir + last + "/" + name
  {
    assert (dir + last)[|dir + last| - 1] == last[|last| - 1];
    assert last[|last| - 1] in last;
  }

  /** The tail of `posixpath.split(p)`: everything after the last '/'. */
  function Tail(p: string): (r: string)
    ensures '/' !in r
    ensures |r| <= |p| && r == p[|p| - |r|..]
    ensures |r| < |p| ==> p[|p| - |r| - 1] == '/'
  {
    Text.AfterLast(p, '/')
  }

  /** A path ending in a plain name has that name as its tail. */
  lemma {:induction false} TailOfJoin(dir: string, name: string)
    requires '/' !in name
    ensures Tail(dir + "/" + name) == name
    decreases |name|
  {
    var p := dir + "/" + name;
    if |name| > 0 {
      var init := name[..|name| - 1];
      TailOfJoin(dir, init);
      assert p[..|p| - 1] == dir + "/" + init;
      assert name == init + [name[|name| - 1]];
    }
  }
}
