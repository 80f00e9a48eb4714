/** The search index of sex_vampires.py: a Tipue Search content file
    holding one node per raw page, per template page and per page or
    article, in that order, written as a JavaScript assignment. */
module Tipue {
  import opened Wrappers
  import opened Json
  import Html
  import Typography
  import Urls
  import opened Pages

  /** A node of the index. Page nodes carry `loc` (the same as `url`);
      raw-page nodes have none. */
  datatype Node = Node(title: string, text: string, tags: string, url: string, loc: Option<string>)

  /** The site settings the generator reads: `SITEURL` (None when unset)
      and `RELATIVE_URLS`. */
  datatype Settings = Settings(siteUrl: Option<string>, relativeUrls: bool)

  /** A page's address in the index: '.' for an empty url, the url itself
      with relative URLs, otherwise the site URL, a slash and the url
      (adding to an unset site URL raises `TypeError`). */
  function PageUrl(s: Settings, url: string): (r: Outcome<string>)
    ensures url == "" ==> r == Ok(".")
    ensures url != "" && s.relativeUrls ==> r == Ok(url)
    ensures url != "" && !s.relativeUrls ==> (r.Ok? <==> s.siteUrl.Some?)
    ensures url != "" && !s.relativeUrls && s.siteUrl.Some? ==> r == Ok(s.siteUrl.value + "/" + url)
    ensures r.Err? ==> r.error == TypeError
  {
    if url == "" then Ok(".")
    else if s.relativeUrls then Ok(url)
    else if s.siteUrl.None? then Err(TypeError)
    else Ok(s.siteUrl.value + "/" + url)
  }

  /** `nodeFromPage`: None (written as null) for a page that is not
      published. Title and text are the parsed strings, each stripped,
      the empty ones dropped and the rest joined by one space. */
  function NodeFromPage(s: Settings, p: Page): (r: Outcome<Option<Node>>)
    ensures !Published(p) ==> r == Ok(None)
    ensures Published(p) ==> (r.Ok? <==> PageUrl(s, p.url).Ok?)
    ensures Published(p) && r.Ok? ==>
              && r.value == Some(Node(Typography.UnTypography(Html.GetText(p.titleStrings, " ")),
                                      Typography.UnTypography(Html.GetText(p.body.strings, " ")), CategoryName(p),
                                      PageUrl(s, p.url).value, Some(PageUrl(s, p.url).value)))
  {
    if !Published(p) then Ok(None)
    else
      var url :- PageUrl(s, p.url);
      Ok(Some(Node(Typography.UnTypography(Html.GetText(p.titleStrings, " ")),
                   Typography.UnTypography(Html.GetText(p.body.strings, " ")), CategoryName(p), url, Some(url))))
  }

  /** A piece of a raw page's parsed text: ordinary text, or the body of a
      `<script>` element. */
  datatype Chunk = Plain(text: string) | Script(code: string)

  /** A page file in the output directory: its path, its `<title>` (None
      when absent; a title whose `.string` is None holds None) and its
      text, piece by piece. */
  datatype RawPage = RawPage(path: string, title: Option<Option<string>>, chunks: seq<Chunk>)

  /** `soup.get_text()` once every script has been extracted. */
  function VisibleText(cs: seq<Chunk>): string
    decreases |cs|
  {
    if |cs| == 0 then ""
    else (if cs[0].Plain? then cs[0].text else "") + VisibleText(cs[1..])
  }

  lemma {:induction false} VisibleAppend(a: seq<Chunk>, b: seq<Chunk>)
    ensures VisibleText(a + b) == VisibleText(a) + VisibleText(b)
    decreases |a|
  {
    if |a| == 0 {
      assert a + b == b;
    } else {
      assert (a + b)[1..] == a[1..] + b;
      VisibleAppend(a[1..], b);
    }
  }

  /** Scripts add nothing to the indexed text, wherever they are. */
  lemma ScriptsIgnored(a: seq<Chunk>, code: string, b: seq<Chunk>)
    ensures VisibleText(a + [Script(code)] + b) == VisibleText(a + b)
  {
    VisibleAppend(a + [Script(code)], b);
    VisibleAppend(a, [Script(code)]);
    VisibleAppend(a, b);
  }

  /** `nodeFromRawPage`. The file may be missing (None); a title whose
      `.string` is None cannot be cleaned. */
  function NodeFromRawPage(s: Settings, path: string, file: Option<RawPage>): (r: Outcome<Node>)
    ensures file.None? <==> r == Err(FileNotFound(path))
    ensures file.Some? && file.value.title == Some(None) ==> r == Err(TypeError)
    ensures r.Ok? <==> file.Some? && file.value.title != Some(None)
    ensures r.Ok? ==>
              && r.value.tags == "page" && r.value.loc.None?
              && r.value.url == Urls.Join(if s.siteUrl.Some? then s.siteUrl.value else "", path)
              && r.value.text == Typography.UnTypography(VisibleText(file.value.chunks))
              && (file.value.title.None? ==> r.value.title == "")
  {
    match file
    case None => Err(FileNotFound(path))
    case Some(f) =>
      var text := Typography.UnTypography(VisibleText(f.chunks));
      var url := Urls.Join(if s.siteUrl.Some? then s.siteUrl.value else "", path);
      match f.title
      case None => Ok(Node("", text, "page", url, None))
      case Some(None) => Err(TypeError)
      case Some(Some(t)) => Ok(Node(Typography.UnTypography(t), text, "page", url, None))
  }

  /** A file `nodeFromRawPage` can index: it exists, and its title, if
      any, has a string. */
  predicate Readable(file: Option<RawPage>) {
    file.Some? && file.value.title != Some(None)
  }

  /** The node of each listed file, in order; the first failure ends the
      run. */
  function RawNodes(s: Settings, paths: seq<string>, files: string -> Option<RawPage>): (r: Outcome<seq<Option<Node>>>)
    ensures r.Ok? <==> forall k :: 0 <= k < |paths| ==> Readable(files(paths[k]))
    ensures r.Ok? ==> |r.value| == |paths| && forall k :: 0 <= k < |paths| ==> r.value[k] == Some(NodeFromRawPage(s, paths[k], files(paths[k])).value)
    decreases |paths|
  {
    if |paths| == 0 then Ok([])
    else
      var n := NodeFromRawPage(s, paths[0], files(paths[0]));
      if !Readable(files(paths[0])) then Err(n.error)
      else
        assert forall k :: 1 <= k < |paths| ==> paths[1..][k - 1] == paths[k];
        var rest :- RawNodes(s, paths[1..], files);
        Ok([Some(n.value)] + rest)
  }

  function PageNodes(s: Settings, ps: seq<Page>): (r: Outcome<seq<Option<Node>>>)
    ensures r.Ok? <==> forall k :: 0 <= k < |ps| ==> NodeFromPage(s, ps[k]).Ok?
    ensures r.Ok? ==> |r.value| == |ps| && forall k :: 0 <= k < |ps| ==> r.value[k] == NodeFromPage(s, ps[k]).value
    decreases |ps|
  {
    if |ps| == 0 then Ok([])
    else
      assert forall k :: 1 <= k < |ps| ==> ps[1..][k - 1] == ps[k];
      var n := NodeFromPage(s, ps[0]);
      var rest := PageNodes(s, ps[1..]);
      if n.Err? then Err(n.error)
      else if rest.Err? then Err(rest.error)
      else Ok([n.value] + rest.value)
  }

  /** All nodes: the raw pages, then the template pages, then the pages
      and articles. */
  function Nodes(s: Settings, raw: seq<string>, templates: seq<string>, ps: seq<Page>, files: string -> Option<RawPage>): (r: Outcome<seq<Option<Node>>>)
    ensures r.Ok? <==> RawNodes(s, raw, files).Ok? && RawNodes(s, templates, files).Ok? && PageNodes(s, ps).Ok?
    ensures r.Ok? ==> r.value == RawNodes(s, raw, files).value + RawNodes(s, templates, files).value + PageNodes(s, ps).value
    ensures r.Ok? ==> |r.value| == |raw| + |templates| + |ps|
  {
    var a :- RawNodes(s, raw, files);
    var b :- RawNodes(s, templates, files);
    var c :- PageNodes(s, ps);
    Ok(a + b + c)
  }

  function NodeJson(n: Option<Node>): Json {
    match n
    case None => JNull
    case Some(n) =>
      var m := map["title" := JStr(n.title), "text" := JStr(n.text), "tags" := JStr(n.tags), "url" := JStr(n.url)];
      JObj(if n.loc.Some? then m["loc" := JStr(n.loc.value)] else m)
  }

  const Prefix: string := "var tipuesearch = "

  /** The document `{"pages": [...]}`, one entry per node, in order. */
  function Document(ns: seq<Option<Node>>): (d: Json)
    ensures d.JObj? && d.fields.Keys == {"pages"} && d.fields["pages"].JArr?
    ensures |d.fields["pages"].items| == |ns|
    ensures forall k :: 0 <= k < |ns| ==> d.fields["pages"].items[k] == NodeJson(ns[k])
  {
    JObj(map["pages" := JArr(seq(|ns|, k requires 0 <= k < |ns| => NodeJson(ns[k])))])
  }

  /** The content file: the document rendered by `dump`, inside a
      JavaScript assignment. */
  function Output(s: Settings, raw: seq<string>, templates: seq<string>, ps: seq<Page>, files: string -> Option<RawPage>, dump: Json -> string): (r: Outcome<string>)
    ensures r.Ok? <==> Nodes(s, raw, templates, ps, files).Ok?
    ensures r.Ok? ==> r.value == Prefix + dump(Document(Nodes(s, raw, templates, ps, files).value)) + ";"
  {
    var ns :- Nodes(s, raw, templates, ps, files);
    Ok(Prefix + dump(Document(ns)) + ";")
  }

  /** Every page and article has a place in the index, a draft as null;
      the pages come after all raw and template pages. */
  lemma DraftsAreNull(s: Settings, raw: seq<string>, templates: seq<string>, ps: seq<Page>, files: string -> Option<RawPage>, k: int)
    requires Nodes(s, raw, templates, ps, files).Ok? && 0 <= k < |ps|
    ensures var ns := Nodes(s, raw, templates, ps, files).value;
            && (ns[|raw| + |templates| + k].None? <==> !Published(ps[k]))
  {
    var a := RawNodes(s, raw, files).value;
    var b := RawNodes(s, templates, files).value;
    var c := PageNodes(s, ps).value;
    Slot(a, b, c, k);
    NullExactlyDraft(s, ps[k]);
  }

  lemma Slot<T>(a: seq<T>, b: seq<T>, c: seq<T>, k: int)
    requires 0 <= k < |c|
    ensures (a + b + c)[|a| + |b| + k] == c[k]
  {
  }

  /** A page's entry is null exactly when the page is unpublished. */
  lemma NullExactlyDraft(s: Settings, p: Page)
    requires NodeFromPage(s, p).Ok?
    ensures NodeFromPage(s, p).value.None? <==> !Published(p)
  {
  }

  /** The address of a published page is also its `loc`. */
  lemma LocIsUrl(s: Settings, p: Page)
    requires NodeFromPage(s, p).Ok? && NodeFromPage(s, p).value.Some?
    ensures NodeFromPage(s, p).value.value.loc == Some(NodeFromPage(s, p).value.value.url)
  {
  }

  /** With a site URL like "https://example.org" and a plain relative
      path, a template page's address is the site URL, a slash and the
      path. */
  lemma TemplateUrl(s: Settings, path: string, f: RawPage)
    requires s.siteUrl.Some? && Urls.SiteBase(Urls.Parse(s.siteUrl.value)) && Urls.PlainFile(path)
    requires f.title != Some(None)
    ensures NodeFromRawPage(s, path, Some(f)).value.url == s.siteUrl.value + "/" + path
  {
    Urls.SiteJoin(s.siteUrl.value, path);
  }
}
