/** Reference resolution of RFC 3986: splitting a URI reference into its
    five components by the regular expression of Appendix B, resolving a
    reference against a base (section 5.2), and recomposing the result
    (section 5.3). The search index generator resolves template-page links
    against the site URL this way (`urljoin`). */
module Urls {
  import opened Wrappers
  import Text

  /** The five components of a URI reference; an undefined component is
      None, which is not the same as an empty one. */
  datatype Uri = Uri(scheme: Option<string>, authority: Option<string>, path: string, query: Option<string>, fragment: Option<string>)

  /** The index of the first character of `s` in `cs`, or |s|. */
  function FirstOf(s: string, cs: set<char>): (i: nat)
    ensures i <= |s|
    ensures forall k :: 0 <= k < i ==> s[k] !in cs
    ensures i < |s| ==> s[i] in cs
    decreases |s|
  {
    if |s| == 0 then 0 else if s[0] in cs then 0 else 1 + FirstOf(s[1..], cs)
  }

  /** A leading component cut off the rest of a reference. */
  datatype Cut = Cut(part: Option<string>, rest: string)

  function Opt(prefix: string, c: Option<string>): string {
    if c.Some? then prefix + c.value else ""
  }

  /** `(([^:/?#]+):)?`: a scheme is a non-empty run free of ':', '/', '?'
      and '#' that ends at a ':'. */
  function SchemePart(s: string): (c: Cut)
    ensures (if c.part.Some? then c.part.value + ":" else "") + c.rest == s
    ensures c.part.Some? ==> |c.part.value| > 0 && forall k :: 0 <= k < |c.part.value| ==> c.part.value[k] !in {':', '/', '?', '#'}
  {
    var i := FirstOf(s, {':', '/', '?', '#'});
    if i < |s| && s[i] == ':' && i > 0 then
      assert s == s[..i] + ":" + s[i + 1..];
      Cut(Some(s[..i]), s[i + 1..])
    else Cut(None, s)
  }

  /** `(//([^/?#]*))?`. */
  function AuthorityPart(s: string): (c: Cut)
    ensures Opt("//", c.part) + c.rest == s
    ensures c.part.Some? ==> forall k :: 0 <= k < |c.part.value| ==> c.part.value[k] !in {'/', '?', '#'}
    ensures c.part.None? ==> !Text.StartsWith(s, "//")
  {
    if Text.StartsWith(s, "//") then
      var t := s[2..];
      var j := FirstOf(t, {'/', '?', '#'});
      assert s == "//" + t[..j] + t[j..];
      Cut(Some(t[..j]), t[j..])
    else Cut(None, s)
  }

  /** `([^?#]*)`: the path, and what follows it. */
  function PathPart(s: string): (c: Cut)
    ensures c.part.Some? && c.part.value + c.rest == s
    ensures forall k :: 0 <= k < |c.part.value| ==> c.part.value[k] !in {'?', '#'}
    ensures |c.rest| == 0 || c.rest[0] in {'?', '#'}
  {
    var k := FirstOf(s, {'?', '#'});
    assert s == s[..k] + s[k..];
    Cut(Some(s[..k]), s[k..])
  }

  /** `(\?([^#]*))?`. */
  function QueryPart(s: string): (c: Cut)
    requires |s| == 0 || s[0] in {'?', '#'}
    ensures Opt("?", c.part) + c.rest == s
    ensures c.part.Some? ==> forall k :: 0 <= k < |c.part.value| ==> c.part.value[k] != '#'
    ensures |c.rest| == 0 || c.rest[0] == '#'
  {
    if |s| > 0 && s[0] == '?' then
      var t := s[1..];
      var m := FirstOf(t, {'#'});
      assert s == "?" + t[..m] + t[m..];
      Cut(Some(t[..m]), t[m..])
    else Cut(None, s)
  }

  /** `(#(.*))?`. */
  function FragmentPart(s: string): (f: Option<string>)
    requires |s| == 0 || s[0] == '#'
    ensures Opt("#", f) == s
  {
    if |s| > 0 then
      assert s == "#" + s[1..];
      Some(s[1..])
    else None
  }

  /** Splitting by `^(([^:/?#]+):)?(//([^/?#]*))?([^?#]*)(\?([^#]*))?(#(.*))?`
      (Appendix B). */
  function Parse(s: string): (u: Uri)
    ensures u.scheme.Some? ==> |u.scheme.value| > 0 && forall k :: 0 <= k < |u.scheme.value| ==> u.scheme.value[k] !in {':', '/', '?', '#'}
    ensures u.authority.Some? ==> forall k :: 0 <= k < |u.authority.value| ==> u.authority.value[k] !in {'/', '?', '#'}
    ensures forall k :: 0 <= k < |u.path| ==> u.path[k] !in {'?', '#'}
    ensures u.query.Some? ==> forall k :: 0 <= k < |u.query.value| ==> u.query.value[k] != '#'
  {
    var c1 := SchemePart(s);
    var c2 := AuthorityPart(c1.rest);
    var c3 := PathPart(c2.rest);
    var c4 := QueryPart(c3.rest);
    Uri(c1.part, c2.part, c3.part.value, c4.part, FragmentPart(c4.rest))
  }

  /** Section 5.3: putting the components back together. */
  function Recompose(u: Uri): (s: string)
    ensures |s| >= |u.path|
  {
    (if u.scheme.Some? then u.scheme.value + ":" else "") + Opt("//", u.authority) + u.path + Opt("?", u.query) + Opt("#", u.fragment)
  }

  /** Splitting then recomposing gives back the reference. */
  lemma ParseRecompose(s: string)
    ensures Recompose(Parse(s)) == s
  {
    var c1 := SchemePart(s);
    var c2 := AuthorityPart(c1.rest);
    var c3 := PathPart(c2.rest);
    var c4 := QueryPart(c3.rest);
    var f := FragmentPart(c4.rest);
    var sch := if c1.part.Some? then c1.part.value + ":" else "";
    Assoc5(sch, Opt("//", c2.part), c3.part.value, Opt("?", c4.part), Opt("#", f));
  }

  lemma Assoc5(a: string, b: string, c: string, d: string, e: string)
    ensures a + b + c + d + e == a + (b + (c + (d + e)))
  {
  }

  // ---------------------------------------------------- dot segments

  /** The output buffer with its last segment removed: everything before
      its last '/', or nothing when it has none. */
  function DropLastSegment(out: string): (r: string)
    ensures |r| <= |out| && r == out[..|r|]
    decreases |out|
  {
    if |out| == 0 then ""
    else if out[|out| - 1] == '/' then out[..|out| - 1]
    else DropLastSegment(out[..|out| - 1])
  }

  /** The first segment of the input: its leading '/', if any, and what
      follows up to the next '/'. */
  function FirstSegment(input: string): (n: nat)
    requires |input| > 0
    ensures 0 < n <= |input|
  {
    if input[0] == '/' then 1 + FirstOf(input[1..], {'/'}) else FirstOf(input, {'/'}) + (if FirstOf(input, {'/'}) == 0 then 1 else 0)
  }

  /** Section 5.2.4, `remove_dot_segments`: the input buffer is consumed
      rule by rule (A to E) while the output buffer grows. */
  function RemoveDots(input: string, out: string): (r: string)
    decreases |input|
  {
    if |input| == 0 then out
    // A: a leading "../" or "./" is dropped
    else if |input| >= 3 && input[0] == '.' && input[1] == '.' && input[2] == '/' then RemoveDots(input[3..], out)
    else if |input| >= 2 && input[0] == '.' && input[1] == '/' then RemoveDots(input[2..], out)
    // B: a leading "/./" or a whole "/." becomes "/"
    else if |input| >= 3 && input[0] == '/' && input[1] == '.' && input[2] == '/' then RemoveDots(input[2..], out)
    else if |input| == 2 && input[0] == '/' && input[1] == '.' then RemoveDots(input[..1], out)
    // C: a leading "/../" or a whole "/.." becomes "/" and drops the last output segment
    else if |input| >= 4 && input[0] == '/' && input[1] == '.' && input[2] == '.' && input[3] == '/' then RemoveDots(input[3..], DropLastSegment(out))
    else if |input| == 3 && input[0] == '/' && input[1] == '.' && input[2] == '.' then RemoveDots(input[..1], DropLastSegment(out))
    // D: a whole "." or ".." is dropped
    else if input[0] == '.' && (|input| == 1 || (|input| == 2 && input[1] == '.')) then out
    // E: the first segment moves to the output
    else
      var n := FirstSegment(input);
      RemoveDots(input[n..], out + input[..n])
  }

  function RemoveDotSegments(path: string): string {
    RemoveDots(path, "")
  }

  /** The segment that starts at `j` is "." or "..". */
  predicate DotSegmentAt(p: string, j: int)
    requires 0 <= j <= |p|
  {
    || (j < |p| && p[j] == '.' && (j + 1 == |p| || p[j + 1] == '/'))
    || (j + 1 < |p| && p[j] == '.' && p[j + 1] == '.' && (j + 2 == |p| || p[j + 2] == '/'))
  }

  /** No segment after a '/' is "." or "..". */
  predicate NoDotSegments(p: string) {
    forall i :: 0 <= i < |p| && p[i] == '/' ==> !DotSegmentAt(p, i + 1)
  }

  /** An absolute path none of whose segments is "." or ".." is kept as it
      is; dots inside a segment, as in "search.html", stay. */
  lemma {:induction false} NoDotsKept(input: string, out: string)
    requires (|input| == 0 || input[0] == '/') && NoDotSegments(input)
    ensures RemoveDots(input, out) == out + input
    decreases |input|
  {
    if |input| > 0 {
      assert !DotSegmentAt(input, 1);
      var n := FirstSegment(input);
      var rest := input[n..];
      assert n == |input| || input[n] == '/';
      forall i | 0 <= i < |rest| && rest[i] == '/' ensures !DotSegmentAt(rest, i + 1) {
        assert input[n + i] == '/';
        assert !DotSegmentAt(input, n + i + 1);
      }
      NoDotsKept(rest, out + input[..n]);
      assert out + input[..n] + rest == out + input;
    }
  }

  /** A path without any '.' has no dot segments. */
  lemma NoDotNoSegment(p: string)
    requires '.' !in p
    ensures NoDotSegments(p)
  {
    forall i | 0 <= i < |p| && p[i] == '/' ensures !DotSegmentAt(p, i + 1) {
      assert i + 1 < |p| ==> p[i + 1] != '.';
    }
  }

  // ------------------------------------------------------ resolution

  /** Section 5.2.3: a relative path merged with the base path. */
  function Merge(base: Uri, path: string): (r: string)
    ensures Text.EndsWith(r, path)
  {
    if base.authority.Some? && base.path == "" then "/" + path
    else DirOf(base.path) + path
  }

  /** Everything up to and including the last '/', or nothing. */
  function DirOf(p: string): (r: string)
    ensures |r| <= |p| && r == p[..|r|]
    ensures |r| > 0 ==> r[|r| - 1] == '/'
    decreases |p|
  {
    if |p| == 0 then ""
    else if p[|p| - 1] == '/' then p
    else DirOf(p[..|p| - 1])
  }

  /** Section 5.2.2, the strict form: the target of reference `r` against
      base `b`. */
  function Resolve(b: Uri, r: Uri): (t: Uri)
    ensures t.fragment == r.fragment
    ensures t.scheme == (if r.scheme.Some? then r.scheme else b.scheme)
    ensures t.authority == (if r.scheme.Some? || r.authority.Some? then r.authority else b.authority)
    ensures r.scheme.None? && r.authority.None? && r.path == "" ==> t.path == b.path && t.query == (if r.query.Some? then r.query else b.query)
    ensures r.scheme.Some? || r.authority.Some? || r.path != "" ==> t.query == r.query
  {
    if r.scheme.Some? then r.(path := RemoveDotSegments(r.path))
    else if r.authority.Some? then Uri(b.scheme, r.authority, RemoveDotSegments(r.path), r.query, r.fragment)
    else if r.path == "" then Uri(b.scheme, b.authority, b.path, if r.query.Some? then r.query else b.query, r.fragment)
    else if r.path[0] == '/' then Uri(b.scheme, b.authority, RemoveDotSegments(r.path), r.query, r.fragment)
    else Uri(b.scheme, b.authority, RemoveDotSegments(Merge(b, r.path)), r.query, r.fragment)
  }

  /** `urljoin(base, url)`: an empty side gives the other unchanged;
      otherwise the reference is resolved against the base. */
  function Join(base: string, ref: string): (r: string)
    ensures base == "" ==> r == ref
    ensures base != "" && ref == "" ==> r == base
  {
    if base == "" then ref
    else if ref == "" then base
    else Recompose(Resolve(Parse(base), Parse(ref)))
  }

  /** A reference that is only a relative path splits into that path. */
  lemma ParsePlainPath(p: string)
    requires |p| > 0 && p[0] != '/' && forall k :: 0 <= k < |p| ==> p[k] !in {':', '?', '#'}
    ensures Parse(p) == Uri(None, None, p, None, None)
  {
    var i := FirstOf(p, {':', '/', '?', '#'});
    assert i == |p| || p[i] == '/';
    assert SchemePart(p) == Cut(None, p);
    assert AuthorityPart(p) == Cut(None, p);
    var k := FirstOf(p, {'?', '#'});
    assert k == |p|;
    assert p[..k] == p && p[k..] == "";
    assert PathPart(p) == Cut(Some(p), "");
  }

  /** Recomposing a base without path, query or fragment, given a path. */
  lemma RecomposeWithPath(b: Uri, x: string)
    requires b.path == "" && b.query.None? && b.fragment.None?
    ensures Recompose(b.(path := x)) == Recompose(b) + x
  {
  }

  /** A base with an authority and nothing after it, such as
      "https://example.org". */
  predicate SiteBase(u: Uri) {
    u.authority.Some? && u.path == "" && u.query.None? && u.fragment.None?
  }

  /** A relative path with no colon, query or fragment, none of whose
      segments is "." or "..". */
  predicate PlainFile(p: string) {
    && |p| > 0 && p[0] != '/'
    && (forall k :: 0 <= k < |p| ==> p[k] !in {':', '?', '#'})
    && NoDotSegments("/" + p)
  }

  /** A site URL without a path, and a plain relative file path: the
      result is the site URL, a slash, and the file path. */
  lemma SiteJoin(site: string, file: string)
    requires SiteBase(Parse(site)) && PlainFile(file)
    ensures Join(site, file) == site + "/" + file
  {
    ParseEmpty();
    SiteJoinUri(Parse(site), file);
    ParseRecompose(site);
  }

  lemma ParseEmpty()
    ensures Parse("").authority.None?
  {
    assert SchemePart("") == Cut(None, "");
  }

  lemma SiteJoinUri(b: Uri, file: string)
    requires SiteBase(b) && PlainFile(file)
    ensures Recompose(Resolve(b, Parse(file))) == Recompose(b) + "/" + file
  {
    PlainFileParse(file);
    PlainFileKept(file);
    ResolvePlainFile(b, file);
    RecomposeWithPath(b, "/" + file);
    assert Recompose(b) + ("/" + file) == Recompose(b) + "/" + file;
  }

  /** Ordinary output file names are plain. */
  lemma PlainNames()
    ensures PlainFile("search.html") && PlainFile("pages/about.html")
    ensures !PlainFile("../x.html") && !PlainFile("a/./b.html")
  {
    var u, v := "/" + "../x.html", "/" + "a/./b.html";
    assert u == "/../x.html" && u[0] == '/' && DotSegmentAt(u, 1);
    assert v == "/a/./b.html" && v[2] == '/' && DotSegmentAt(v, 3);
  }

  lemma PlainFileParse(file: string)
    requires PlainFile(file)
    ensures Parse(file) == Uri(None, None, file, None, None)
  {
    ParsePlainPath(file);
  }

  lemma PlainFileKept(file: string)
    requires PlainFile(file)
    ensures RemoveDotSegments("/" + file) == "/" + file
  {
    NoDotsKept("/" + file, "");
  }

  lemma ResolvePlainFile(b: Uri, file: string)
    requires SiteBase(b) && PlainFile(file)
    ensures Resolve(b, Uri(None, None, file, None, None)) == b.(path := RemoveDotSegments("/" + file))
  {
  }

  /** The example base of section 5.4 of RFC 3986, split. */
  const ExampleBase: Uri := Uri(Some("http"), Some("a"), "/b/c/d;p", Some("q"), None)

  lemma ExampleDir()
    ensures DirOf(ExampleBase.path) == "/b/c/"
  {
    var p := "/b/c/d;p";
    assert p[..7] == "/b/c/d;" && p[6] == ';' && p[7] == 'p';
    assert DirOf(p) == DirOf("/b/c/d;");
    assert "/b/c/d;"[..6] == "/b/c/d";
    assert DirOf("/b/c/d;") == DirOf("/b/c/d");
    assert "/b/c/d"[..5] == "/b/c/";
    assert DirOf("/b/c/d") == DirOf("/b/c/");
  }

  /** Section 5.4.1: "g" resolves to "http://a/b/c/g". */
  lemma ExampleSibling()
    ensures Resolve(ExampleBase, Uri(None, None, "g", None, None)).path == "/b/c/g"
  {
    ExampleDir();
    assert Merge(ExampleBase, "g") == "/b/c/g";
    NoDotNoSegment("/b/c/g");
    NoDotsKept("/b/c/g", "");
  }

  /** Rule E on a segment that starts with a slash and no dot. */
  lemma StepSegment(input: string, out: string, n: nat)
    requires 1 < n <= |input| && input[0] == '/' && input[1] != '.' && '/' !in input[1..n] && (n == |input| || input[n] == '/')
    ensures RemoveDots(input, out) == RemoveDots(input[n..], out + input[..n])
  {
    assert FirstOf(input[1..], {'/'}) == n - 1;
  }

  /** Rule C on a leading "/../". */
  lemma StepUp(input: string, out: string)
    requires |input| >= 4 && input[0] == '/' && input[1] == '.' && input[2] == '.' && input[3] == '/'
    ensures RemoveDots(input, out) == RemoveDots(input[3..], DropLastSegment(out))
  {
  }

  /** Section 5.4.1: "../g" resolves to "http://a/b/g". */
  lemma ExampleParent()
    ensures Resolve(ExampleBase, Uri(None, None, "../g", None, None)).path == "/b/g"
  {
    ExampleDir();
    assert Merge(ExampleBase, "../g") == "/b/c/../g";
    ParentDots();
  }

  lemma ParentDots()
    ensures RemoveDotSegments("/b/c/../g") == "/b/g"
  {
    var m := "/b/c/../g";
    assert m[2..] == "/c/../g" && m[..2] == "/b" && m[1..2] == "b";
    StepSegment(m, "", 2);
    ParentDots2();
  }

  lemma ParentDots2()
    ensures RemoveDots("/c/../g", "" + "/b") == "/b/g"
  {
    var m := "/c/../g";
    assert m[2..] == "/../g" && m[..2] == "/c" && m[1..2] == "c";
    StepSegment(m, "/b", 2);
    assert "" + "/b" == "/b" && "/b" + "/c" == "/b/c";
    ParentDots3();
  }

  lemma ParentDots3()
    ensures RemoveDots("/../g", "/b/c") == "/b/g"
  {
    StepUp("/../g", "/b/c");
    assert "/b/c"[..2] == "/b";
    assert DropLastSegment("/b/c") == "/b";
    assert "/../g"[3..] == "/g";
    NoDotNoSegment("/g");
    NoDotsKept("/g", "/b");
  }
}
