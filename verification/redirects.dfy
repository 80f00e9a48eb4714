/** The redirects plugin (redirects.py): every old address of a post, from
    the `ARTICLE_SAVE_AS_OLD` setting and the comma-separated `redirect`
    metadata, gets a small page under the output directory that sends the
    browser on to the post's current address. */
module Redirects {
  import opened Wrappers
  import opened Json
  import Text
  import Paths

  // ---------------------------------------------------------- str.format

  function Prefix(p: string, r: Outcome<string>): (q: Outcome<string>)
    ensures q.Ok? == r.Ok?
    ensures r.Ok? ==> q.value == p + r.value
    ensures r.Err? ==> q == r
  {
    if r.Ok? then Ok(p + r.value) else r
  }

  predicate BraceFree(s: string) {
    forall i :: 0 <= i < |s| ==> s[i] != '{' && s[i] != '}'
  }

  /** `s.format(**kw)` for replacement fields that name a keyword: `{{` and
      `}}` stand for single braces, `{name}` for `kw[name]`; a field naming
      no keyword raises `KeyError`, an empty one `IndexError` (there are no
      positional arguments), and a stray or unclosed brace `ValueError`. */
  function Format(s: string, kw: map<string, string>): (r: Outcome<string>)
    decreases |s|
  {
    if |s| == 0 then Ok([])
    else if s[0] == '{' && |s| >= 2 && s[1] == '{' then Prefix("{", Format(s[2..], kw))
    else if s[0] == '}' && |s| >= 2 && s[1] == '}' then Prefix("}", Format(s[2..], kw))
    else if s[0] == '}' then Err(ValueError)
    else if s[0] == '{' then
      var name := Text.Before(s[1..], '}');
      if 1 + |name| == |s| then Err(ValueError)
      else if '{' in name then Err(ValueError)
      else if name == "" then Err(Failure("IndexError"))
      else if name !in kw then Err(KeyError(name))
      else Prefix(kw[name], Format(s[2 + |name|..], kw))
    else Prefix([s[0]], Format(s[1..], kw))
  }

  /** Text without braces passes through in front of whatever follows. */
  lemma {:induction false} FormatPlainPrefix(a: string, t: string, kw: map<string, string>)
    requires BraceFree(a)
    ensures Format(a + t, kw) == Prefix(a, Format(t, kw))
    decreases |a|
  {
    if |a| > 0 {
      var s := a + t;
      assert s[0] == a[0] && s[1..] == a[1..] + t;
      assert a[0] != '{' && a[0] != '}';
      assert Format(s, kw) == Prefix([a[0]], Format(a[1..] + t, kw));
      assert BraceFree(a[1..]) by {
        assert forall i :: 0 <= i < |a[1..]| ==> a[1..][i] == a[i + 1];
      }
      FormatPlainPrefix(a[1..], t, kw);
      assert a == [a[0]] + a[1..];
      if Format(t, kw).Ok? {
        assert [a[0]] + (a[1..] + Format(t, kw).value) == a + Format(t, kw).value;
      }
    } else {
      assert a + t == t;
      if Format(t, kw).Ok? {
        assert a + Format(t, kw).value == Format(t, kw).value;
      }
    }
  }

  /** Text without braces formats to itself. */
  lemma FormatPlain(s: string, kw: map<string, string>)
    requires BraceFree(s)
    ensures Format(s, kw) == Ok(s)
  {
    FormatPlainPrefix(s, "", kw);
    assert s + "" == s;
  }

  /** A pattern with one field, like `"{slug}/"`, formats to the keyword's
      value in place of the field. */
  lemma OneField(a: string, k: string, b: string, kw: map<string, string>)
    requires BraceFree(a) && BraceFree(b) && BraceFree(k) && k != "" && k in kw
    ensures Format(a + "{" + k + "}" + b, kw) == Ok(a + kw[k] + b)
  {
    var t := "{" + k + "}" + b;
    assert a + "{" + k + "}" + b == a + t;
    FormatPlainPrefix(a, t, kw);
    assert t[0] == '{' && t[1..] == k + "}" + b && t[1] == k[0];
    BeforeField(k, b);
    assert t[2 + |k|..] == b;
    assert '{' !in k;
    FormatPlain(b, kw);
    assert Format(t, kw) == Ok(kw[k] + b);
    assert a + (kw[k] + b) == a + kw[k] + b;
  }

  lemma BeforeField(k: string, b: string)
    requires BraceFree(k)
    ensures Text.Before(k + "}" + b, '}') == k
  {
    var s := k + "}" + b;
    var r := Text.Before(s, '}');
    assert s[|k|] == '}';
    assert forall i :: 0 <= i < |k| ==> s[i] == k[i];
    assert s[..|k|] == k;
  }

  /** A field naming a keyword the post does not have is a `KeyError`. */
  lemma MissingKey(k: string, kw: map<string, string>)
    requires BraceFree(k) && k != "" && k !in kw
    ensures Format("{" + k + "}", kw) == Err(KeyError(k))
  {
    BeforeField(k, "");
    var t := "{" + k + "}";
    assert t[0] == '{' && t[1..] == k + "}" + "" && t[1] == k[0];
  }

  // --------------------------------------------------------------- posts

  /** What the plugin reads of a post: the old save-as patterns setting, the
      `redirect` metadata, the post's `url_format` keywords, the
      `OUTPUT_PATH` setting and `save_as`. */
  datatype Post = Post(
    oldSaveAs: Option<seq<string>>,
    redirect: Option<string>,
    urlFormat: map<string, string>,
    outputPath: Option<string>,
    saveAs: string)

  /** One entry of the module's `source_files` list. */
  datatype Record = Record(writeTo: string, redirectTo: string)

  /** `sum([...], [])` over the document lists a generator has and that are
      non-empty, in `TYPES_TO_PROCESS` order. */
  function Documents(lists: seq<Option<seq<Post>>>): (r: seq<Post>)
    ensures forall i, k :: 0 <= i < |lists| && lists[i].Some? && 0 <= k < |lists[i].value| ==> lists[i].value[k] in r
    ensures forall p :: p in r ==> exists i :: 0 <= i < |lists| && lists[i].Some? && p in lists[i].value
    decreases |lists|
  {
    if |lists| == 0 then []
    else
      var rest := Documents(lists[1..]);
      assert forall i :: 1 <= i < |lists| ==> lists[i] == lists[1..][i - 1];
      (if lists[0].Some? then lists[0].value else []) + rest
  }

  /** The redirect targets of a post: the setting's patterns, then the
      pieces of the metadata between commas. */
  function Targets(p: Post): (ts: seq<string>)
    ensures p.redirect.None? ==> ts == p.oldSaveAs.GetOr([])
    ensures p.redirect.Some? ==> ts == p.oldSaveAs.GetOr([]) + Text.Split(p.redirect.value, ",")
  {
    p.oldSaveAs.GetOr([]) + (if p.redirect.Some? then Text.Split(p.redirect.value, ",") else [])
  }

  /** A leading '/' is dropped, once, with a warning. */
  function Strip(t: string): string {
    if Text.StartsWith(t, "/") then t[1..] else t
  }

  /** Where one target's page goes, or None when the `try` block raises
      (no `OUTPUT_PATH`, or the pattern does not format). */
  function WriteTo(p: Post, t: string): (r: Option<string>)
    ensures r.Some? <==> p.outputPath.Some? && Format(Strip(t), p.urlFormat).Ok?
  {
    if p.outputPath.None? then None
    else match Format(Strip(t), p.urlFormat)
      case Err(_) => None
      case Ok(f) => Some(Paths.Join2(p.outputPath.value, f))
  }

  /** The records for the targets `ts`, skipping those that raised. */
  function RecordsFor(p: Post, ts: seq<string>): (r: seq<Record>)
    ensures |r| <= |ts|
    ensures forall k :: 0 <= k < |r| ==> r[k].redirectTo == p.saveAs
    ensures forall k :: 0 <= k < |r| ==> exists i :: 0 <= i < |ts| && WriteTo(p, ts[i]) == Some(r[k].writeTo)
    ensures forall i :: 0 <= i < |ts| && WriteTo(p, ts[i]).Some? ==> Record(WriteTo(p, ts[i]).value, p.saveAs) in r
    decreases |ts|
  {
    if |ts| == 0 then []
    else
      var rest := RecordsFor(p, ts[1..]);
      assert forall i :: 1 <= i < |ts| ==> ts[i] == ts[1..][i - 1];
      var here := WriteTo(p, ts[0]);
      if here.Some? then [Record(here.value, p.saveAs)] + rest else rest
  }

  /** `link_source_files(generator)`: the records of every document are
      appended to those gathered so far. */
  function LinkSourceFiles(sofar: seq<Record>, lists: seq<Option<seq<Post>>>): (r: seq<Record>)
    ensures |r| >= |sofar| && r[..|sofar|] == sofar
    ensures forall p, t :: p in Documents(lists) && t in Targets(p) && WriteTo(p, t).Some? ==> Record(WriteTo(p, t).value, p.saveAs) in r
  {
    var docs := Documents(lists);
    var all := AllRecords(docs);
    forall p, t | p in docs && t in Targets(p) && WriteTo(p, t).Some?
      ensures Record(WriteTo(p, t).value, p.saveAs) in sofar + all
    {
      var i :| 0 <= i < |Targets(p)| && Targets(p)[i] == t;
      assert Record(WriteTo(p, t).value, p.saveAs) in RecordsFor(p, Targets(p));
    }
    assert (sofar + all)[..|sofar|] == sofar;
    sofar + all
  }

  function AllRecords(docs: seq<Post>): (r: seq<Record>)
    ensures forall p :: p in docs ==> forall x :: x in RecordsFor(p, Targets(p)) ==> x in r
    decreases |docs|
  {
    if |docs| == 0 then []
    else RecordsFor(docs[0], Targets(docs[0])) + AllRecords(docs[1..])
  }

  // ------------------------------------------------------------- writing

  const Head := "\n<head>\n    <meta http-equiv=\"refresh\" content=\"0; url=/"
  const Mid1 := "\">\n</head>\n<body>\n<script>\n    window.location.href = \"/"
  const Mid2 := "\"\n</script>\n<p>If you are not automatically redirected, <a href=\"/"
  const Tail := "\">click here.</a></p>\n</body>\n"

  /** `REDIRECT_TEMPLATE.format(url=url)`: the refresh header, the script
      and the fallback link all point at `/url`. */
  function Page(url: string): (r: string)
    ensures |r| == |Head| + |Mid1| + |Mid2| + |Tail| + 3 * |url|
    ensures r[|Head|..|Head| + |url|] == url
  {
    Placed(Head, url, Mid1 + url + Mid2 + url + Tail);
    Head + url + (Mid1 + url + Mid2 + url + Tail)
  }

  lemma Placed(a: string, u: string, rest: string)
    ensures (a + u + rest)[|a|..|a| + |u|] == u
  {
  }

  /** Different targets give different pages. */
  lemma PageInjective(u: string, v: string)
    requires Page(u) == Page(v)
    ensures u == v
  {
    assert |u| == |v|;
  }

  /** Where `write_source_files` writes a record's page: the path itself
      when it names an `.html` file, else `index.html` inside it. */
  function OutPath(writeTo: string): (r: string)
    ensures Text.EndsWith(r, ".html")
    ensures Text.EndsWith(writeTo, ".html") ==> r == writeTo
  {
    if Text.EndsWith(writeTo, ".html") then writeTo
    else
      var r := Paths.Join2(writeTo, "index.html");
      assert r[|r| - 5..] == ".html";
      r
  }

  /** Writing `(path, text)` pairs in turn, each write replacing what was
      at its path. */
  function Store(files: map<string, string>, ws: seq<(string, string)>): map<string, string>
    decreases |ws|
  {
    if |ws| == 0 then files
    else
      var n := |ws| - 1;
      Store(files, ws[..n])[ws[n].0 := ws[n].1]
  }

  /** The files afterwards are those before and the paths written. */
  lemma {:induction false} StoredPaths(files: map<string, string>, ws: seq<(string, string)>)
    ensures forall q :: q in Store(files, ws) <==> q in files || exists i :: 0 <= i < |ws| && ws[i].0 == q
    decreases |ws|
  {
    if |ws| > 0 {
      var n := |ws| - 1;
      StoredPaths(files, ws[..n]);
      assert forall i :: 0 <= i < n ==> ws[..n][i] == ws[i];
    }
  }

  /** The text at a path is the last one written there. */
  lemma {:induction false} LastWriteWins(files: map<string, string>, ws: seq<(string, string)>, i: nat)
    requires i < |ws|
    requires forall j :: i < j < |ws| ==> ws[j].0 != ws[i].0
    ensures ws[i].0 in Store(files, ws) && Store(files, ws)[ws[i].0] == ws[i].1
    decreases |ws|
  {
    var n := |ws| - 1;
    if i < n {
      assert ws[..n][i] == ws[i];
      assert forall j :: i < j < n ==> ws[..n][j] == ws[j];
      LastWriteWins(files, ws[..n], i);
    }
  }

  /** A path nothing is written to keeps what it held. */
  lemma {:induction false} OthersKept(files: map<string, string>, ws: seq<(string, string)>, q: string)
    requires q in files && forall i :: 0 <= i < |ws| ==> ws[i].0 != q
    ensures q in Store(files, ws) && Store(files, ws)[q] == files[q]
    decreases |ws|
  {
    if |ws| > 0 {
      var n := |ws| - 1;
      assert forall i :: 0 <= i < n ==> ws[..n][i] == ws[i];
      OthersKept(files, ws[..n], q);
    }
  }

  /** The writes `write_source_files` makes, one per record. */
  function Writes(recs: seq<Record>): (ws: seq<(string, string)>)
    ensures |ws| == |recs|
    ensures forall i :: 0 <= i < |recs| ==> ws[i] == (OutPath(recs[i].writeTo), Page(recs[i].redirectTo))
  {
    seq(|recs|, i requires 0 <= i < |recs| => (OutPath(recs[i].writeTo), Page(recs[i].redirectTo)))
  }

  /** `write_source_files`: the files after every record's page is written. */
  function WriteSourceFiles(files: map<string, string>, recs: seq<Record>): map<string, string> {
    Store(files, Writes(recs))
  }

  /** Every page the plugin writes is an `.html` file. */
  lemma OnlyHtmlWritten(files: map<string, string>, recs: seq<Record>)
    requires forall q :: q in files ==> Text.EndsWith(q, ".html")
    ensures forall q :: q in WriteSourceFiles(files, recs) ==> Text.EndsWith(q, ".html")
  {
    StoredPaths(files, Writes(recs));
  }

  /** A record's page ends up at its path unless a later record writes the
      same path. */
  lemma RecordPageWritten(files: map<string, string>, recs: seq<Record>, i: nat)
    requires i < |recs|
    requires forall j :: i < j < |recs| ==> OutPath(recs[j].writeTo) != OutPath(recs[i].writeTo)
    ensures OutPath(recs[i].writeTo) in WriteSourceFiles(files, recs)
    ensures WriteSourceFiles(files, recs)[OutPath(recs[i].writeTo)] == Page(recs[i].redirectTo)
  {
    LastWriteWins(files, Writes(recs), i);
  }

  /** Only one leading '/' is stripped: a target starting with "//" and
      holding no braces is written at that absolute path, outside the
      output directory, whatever `OUTPUT_PATH` is. */
  lemma AbsoluteTargetEscapes(p: Post, rest: string)
    requires p.outputPath.Some? && BraceFree(rest)
    ensures WriteTo(p, "//" + rest) == Some("/" + rest)
  {
    var t := "//" + rest;
    assert Text.StartsWith(t, "/");
    assert Strip(t) == "/" + rest;
    assert BraceFree("/" + rest) by {
      assert forall i :: 1 <= i < |"/" + rest| ==> ("/" + rest)[i] == rest[i - 1];
    }
    FormatPlain("/" + rest, p.urlFormat);
  }

  /** An empty piece of the `redirect` metadata, as a trailing comma
      leaves, is a target too: it is written as `index.html` directly in the
      output directory, the site's own front page. */
  lemma TrailingCommaWritesFrontPage(p: Post, first: string)
    requires p.outputPath.Some? && |p.outputPath.value| > 0 && p.outputPath.value[|p.outputPath.value| - 1] != '/'
    requires p.redirect == Some(first + ",") && ',' !in first
    ensures Record(p.outputPath.value + "/", p.saveAs) in RecordsFor(p, Targets(p))
    ensures OutPath(p.outputPath.value + "/") == p.outputPath.value + "/index.html"
  {
    var out := p.outputPath.value;
    assert first + "," == first + [','] + "";
    Text.SplitAfterPiece(first, ',', "");
    Text.SplitNoSep("", ',');
    var ts := Targets(p);
    assert ts == p.oldSaveAs.GetOr([]) + [first, ""];
    assert ts[|ts| - 1] == "";
    assert Strip("") == "";
    assert Format("", p.urlFormat) == Ok([]);
    assert Paths.Join2(out, "") == out + "/";
    assert WriteTo(p, "") == Some(out + "/");
    assert (out + "/")[|out|] == '/';
    assert !Text.EndsWith(out + "/", ".html");
    assert Paths.Join2(out + "/", "index.html") == out + "/index.html";
  }
}
