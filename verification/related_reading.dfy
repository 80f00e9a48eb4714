/** The related-reading aggregate of related_reading.py: one node per
    template page and per published page, holding the page's
    `related_reading` links; the nodes that have links are sorted by
    category and grouped into one run per category. */
module RelatedReading {
  import opened Wrappers
  import opened Json
  import Html
  import Typography
  import Urls
  import Grouping
  import opened Pages

  const LinkClass: string := "related_reading"

  /** A template page as parsed from the output directory: its `<title>`
      (None when absent; a title whose `.string` is None holds None) and
      its anchors. */
  datatype TemplatePage = TemplatePage(path: string, title: Option<Option<string>>, anchors: seq<Html.Anchor>)

  datatype Link = Link(text: string, href: Option<string>)

  datatype Node = Node(title: string, category: string, url: string, links: seq<Link>)

  predicate Related(a: Html.Anchor) {
    LinkClass in a.classes
  }

  /** `find_all("a", class_="related_reading")`: the anchors carrying the
      class, in document order. */
  function RelatedAnchors(anchors: seq<Html.Anchor>): (r: seq<Html.Anchor>)
    ensures |r| == Html.CountIf(anchors, Related)
    ensures forall a :: a in r <==> a in anchors && Related(a)
    decreases |anchors|
  {
    if |anchors| == 0 then []
    else
      var rest := RelatedAnchors(anchors[1..]);
      assert forall a :: a in anchors <==> a == anchors[0] || a in anchors[1..];
      if Related(anchors[0]) then [anchors[0]] + rest else rest
  }

  /** One link per related anchor: its text and what `hrefOf` reads. */
  function Links(anchors: seq<Html.Anchor>, hrefOf: Html.Anchor -> Option<string>): (r: seq<Link>)
    ensures var ra := RelatedAnchors(anchors);
            |r| == |ra| && forall k :: 0 <= k < |r| ==> r[k] == Link(ra[k].text, hrefOf(ra[k]))
  {
    var ra := RelatedAnchors(anchors);
    seq(|ra|, k requires 0 <= k < |ra| => Link(ra[k].text, hrefOf(ra[k])))
  }

  /** Links split along the anchors. */
  lemma {:induction false} RelatedAppend(xs: seq<Html.Anchor>, ys: seq<Html.Anchor>)
    ensures RelatedAnchors(xs + ys) == RelatedAnchors(xs) + RelatedAnchors(ys)
    decreases |xs|
  {
    if |xs| == 0 {
      assert xs + ys == ys;
    } else {
      assert (xs + ys)[1..] == xs[1..] + ys;
      RelatedAppend(xs[1..], ys);
    }
  }

  function Href(a: Html.Anchor): Option<string> {
    a.href
  }

  /** `nodeFromPage`: None for a page that is not published. The title is
      its parsed strings, each stripped, the empty ones dropped and the
      rest joined by one space; a category whose slug is "none" counts as
      no category. */
  function NodeFromPage(p: Page): (r: Option<Node>)
    ensures r.None? <==> !Published(p)
    ensures r.Some? ==>
              && r.value.title == Typography.UnTypography(Html.GetText(p.titleStrings, " "))
              && (r.value.category == if p.category.Some? && p.category.value.slug != NoneSlug then p.category.value.name else "")
              && (r.value.url == if p.url == "" then "." else p.url)
              && r.value.links == Links(p.body.anchors, Href)
  {
    if !Published(p) then None
    else Some(Node(Typography.UnTypography(Html.GetText(p.titleStrings, " ")), CategoryName(p),
                   if p.url == "" then "." else p.url, Links(p.body.anchors, Href)))
  }

  /** The title of a template page: empty without a `<title>`; a title
      whose `.string` is None cannot be cleaned (`TypeError`). */
  function TemplateTitle(t: Option<Option<string>>): (r: Outcome<string>)
    ensures r.Err? <==> t == Some(None)
    ensures r.Err? ==> r.error == TypeError
    ensures t.None? ==> r == Ok("")
  {
    match t
    case None => Ok("")
    case Some(None) => Err(TypeError)
    case Some(Some(s)) => Ok(Typography.UnTypography(s))
  }

  /** `nodeFromTPage` as written: `anchor.href` asks the parse tree for a
      child element named `href`, which an anchor does not have, so every
      link of a template page loses its target. */
  function NodeFromTPageAsWritten(site: string, t: TemplatePage): (r: Outcome<Node>)
    ensures r.Err? <==> t.title == Some(None)
    ensures r.Ok? ==> r.value.category == "page" && r.value.url == Urls.Join(site, t.path)
    ensures r.Ok? ==> |r.value.links| == |RelatedAnchors(t.anchors)|
    ensures r.Ok? ==> forall k :: 0 <= k < |r.value.links| ==> r.value.links[k].href.None?
  {
    var title :- TemplateTitle(t.title);
    Ok(Node(title, "page", Urls.Join(site, t.path), Links(t.anchors, a => None)))
  }

  /** `nodeFromTPage` reading each anchor's `href` attribute, as page nodes
      do. */
  function NodeFromTPage(site: string, t: TemplatePage): (r: Outcome<Node>)
    ensures r.Err? <==> t.title == Some(None)
    ensures r.Ok? ==> r.value.category == "page" && r.value.url == Urls.Join(site, t.path) && r.value.links == Links(t.anchors, Href)
  {
    var title :- TemplateTitle(t.title);
    Ok(Node(title, "page", Urls.Join(site, t.path), Links(t.anchors, Href)))
  }

  /** A related link on a template page: written as is, its target is
      lost; corrected, it is kept. */
  lemma TemplateHrefLost(site: string)
    ensures var t := TemplatePage("x.html", None, [Html.Anchor(Some("/a.html"), [LinkClass], "A")]);
            && NodeFromTPageAsWritten(site, t).value.links == [Link("A", None)]
            && NodeFromTPage(site, t).value.links == [Link("A", Some("/a.html"))]
  {
    var a := Html.Anchor(Some("/a.html"), [LinkClass], "A");
    assert Related(a);
    assert RelatedAnchors([a]) == [a];
  }

  /** The node of a template page: as written (`corrected` false) or with
      each link's target read from its `href` attribute. */
  function TNode(site: string, t: TemplatePage, corrected: bool): Outcome<Node> {
    if corrected then NodeFromTPage(site, t) else NodeFromTPageAsWritten(site, t)
  }

  /** Template nodes first, then page nodes; nothing is dropped yet. */
  function TemplateNodes(site: string, ts: seq<TemplatePage>, corrected: bool): (r: Outcome<seq<Node>>)
    ensures r.Ok? <==> forall k :: 0 <= k < |ts| ==> ts[k].title != Some(None)
    ensures r.Err? ==> r.error == TypeError
    ensures r.Ok? ==> |r.value| == |ts| && forall k :: 0 <= k < |ts| ==> r.value[k] == TNode(site, ts[k], corrected).value
    decreases |ts|
  {
    if |ts| == 0 then Ok([])
    else
      assert forall k :: 1 <= k < |ts| ==> ts[1..][k - 1] == ts[k];
      var n :- TNode(site, ts[0], corrected);
      var rest :- TemplateNodes(site, ts[1..], corrected);
      Ok([n] + rest)
  }

  /** The two readings of the template pages fail alike and agree on every
      node except the links' targets, which as written are all lost. */
  lemma TemplateNodesAgree(site: string, ts: seq<TemplatePage>)
    ensures TemplateNodes(site, ts, false).Ok? <==> TemplateNodes(site, ts, true).Ok?
    ensures TemplateNodes(site, ts, true).Ok? ==>
              var w := TemplateNodes(site, ts, false).value;
              var c := TemplateNodes(site, ts, true).value;
              forall k :: 0 <= k < |ts| ==>
                && w[k].title == c[k].title && w[k].category == c[k].category && w[k].url == c[k].url
                && |w[k].links| == |c[k].links|
                && forall j :: 0 <= j < |w[k].links| ==> w[k].links[j] == Link(c[k].links[j].text, None)
  {
  }

  /** The page nodes; an unpublished page leaves None in the list, which
      the link filter then fails on (`TypeError`). */
  function PageNodes(ps: seq<Page>): (r: Outcome<seq<Node>>)
    ensures r.Ok? <==> forall k :: 0 <= k < |ps| ==> Published(ps[k])
    ensures r.Err? ==> r.error == TypeError
    ensures r.Ok? ==> |r.value| == |ps| && forall k :: 0 <= k < |ps| ==> r.value[k] == NodeFromPage(ps[k]).value
    decreases |ps|
  {
    if |ps| == 0 then Ok([])
    else
      assert forall k :: 1 <= k < |ps| ==> ps[1..][k - 1] == ps[k];
      var n := NodeFromPage(ps[0]);
      if n.None? then Err(TypeError)
      else
        var rest :- PageNodes(ps[1..]);
        Ok([n.value] + rest)
  }

  predicate HasLinks(n: Node) {
    |n.links| > 0
  }

  /** `[p for p in nodes if p['links']]`. */
  function WithLinks(ns: seq<Node>): (r: seq<Node>)
    ensures forall n :: n in r <==> n in ns && HasLinks(n)
    ensures |r| <= |ns|
    decreases |ns|
  {
    if |ns| == 0 then []
    else
      var rest := WithLinks(ns[1..]);
      assert forall n :: n in ns <==> n == ns[0] || n in ns[1..];
      if HasLinks(ns[0]) then [ns[0]] + rest else rest
  }

  function Category(n: Node): string {
    n.category
  }

  /** `generate_output`: the nodes with links, sorted by category, grouped
      by category. */
  function Generate(site: string, ts: seq<TemplatePage>, ps: seq<Page>, corrected: bool): (r: Outcome<seq<Grouping.Group<string, Node>>>)
    ensures r.Ok? <==> (forall k :: 0 <= k < |ts| ==> ts[k].title != Some(None)) && (forall k :: 0 <= k < |ps| ==> Published(ps[k]))
    ensures r.Err? ==> r.error == TypeError
  {
    var tn :- TemplateNodes(site, ts, corrected);
    var pn :- PageNodes(ps);
    var kept := WithLinks(tn + pn);
    Ok(Grouping.GroupBy(Grouping.Sort(kept, Category, Grouping.StrLe), Category))
  }

  /** What the aggregate holds: exactly the nodes that have links, each
      once per occurrence, grouped under one group per category in
      increasing order of category. */
  lemma GenerateShape(site: string, ts: seq<TemplatePage>, ps: seq<Page>, corrected: bool)
    requires Generate(site, ts, ps, corrected).Ok?
    ensures var gs := Generate(site, ts, ps, corrected).value;
            var nodes := TemplateNodes(site, ts, corrected).value + PageNodes(ps).value;
            && multiset(Grouping.Flatten(gs)) == multiset(WithLinks(nodes))
            && (forall g, h :: 0 <= g < h < |gs| ==> Grouping.StrLe(gs[g].key, gs[h].key) && gs[g].key != gs[h].key)
            && (forall g, m :: 0 <= g < |gs| && 0 <= m < |gs[g].members| ==> gs[g].members[m].category == gs[g].key && HasLinks(gs[g].members[m]))
  {
    var nodes := TemplateNodes(site, ts, corrected).value + PageNodes(ps).value;
    var kept := WithLinks(nodes);
    var sorted := Grouping.Sort(kept, Category, Grouping.StrLe);
    var gs := Grouping.GroupBy(sorted, Category);
    Grouping.SortPerm(kept, Category, Grouping.StrLe);
    Grouping.StrOrder();
    Grouping.SortSorted(kept, Category, Grouping.StrLe);
    Grouping.GroupKeysSorted(sorted, Category, Grouping.StrLe);
    Grouping.GroupSortedDistinct(sorted, Category, Grouping.StrLe);
    forall g, m | 0 <= g < |gs| && 0 <= m < |gs[g].members| ensures HasLinks(gs[g].members[m]) {
      FlattenMember(gs, g, m);
      assert gs[g].members[m] in multiset(sorted);
    }
  }

  lemma {:induction false} FlattenMember<K, T>(gs: seq<Grouping.Group<K, T>>, g: int, m: int)
    requires 0 <= g < |gs| && 0 <= m < |gs[g].members|
    ensures gs[g].members[m] in Grouping.Flatten(gs)
    decreases g
  {
    if g > 0 {
      FlattenMember(gs[1..], g - 1, m);
    }
  }

  /** One unpublished page anywhere makes the whole aggregate fail. */
  lemma DraftBreaksAggregate(site: string, ps: seq<Page>, k: int, corrected: bool)
    requires 0 <= k < |ps| && !Published(ps[k])
    ensures Generate(site, [], ps, corrected) == Err(TypeError)
  {
  }
}
