/** The site outline of full_outline.py: for every published page a table
    of contents built from the `<section>` elements of its content, the
    pages sorted by date and grouped by runs of equal category. */
module FullOutline {
  import opened Wrappers
  import opened Json
  import Html
  import Text
  import Typography
  import Grouping
  import opened Pages

  // ------------------------------------------------------------- the tree

  function Size(n: Html.Node): (r: nat)
    ensures r >= 1
    decreases n, 0
  {
    match n
    case TextRun(_) => 1
    case Element(_, _, cs) => 1 + SizeAll(cs)
  }

  function SizeAll(cs: seq<Html.Node>): nat
    decreases cs, 1
  {
    if |cs| == 0 then 0 else Size(cs[0]) + SizeAll(cs[1..])
  }

  /** Every node under `n`, in document order, `n` itself excluded. */
  function Descendants(n: Html.Node): seq<Html.Node>
    decreases n, 0
  {
    match n
    case TextRun(_) => []
    case Element(_, _, cs) => DescendantsAll(cs)
  }

  function DescendantsAll(cs: seq<Html.Node>): seq<Html.Node>
    decreases cs, 1
  {
    if |cs| == 0 then [] else [cs[0]] + Descendants(cs[0]) + DescendantsAll(cs[1..])
  }

  /** Everything under a node is smaller than the node. */
  lemma {:induction false} DescendantsSmaller(n: Html.Node)
    ensures forall d :: d in Descendants(n) ==> Size(d) < Size(n)
    decreases n, 0
  {
    match n
    case TextRun(_) =>
    case Element(_, _, cs) => DescendantsAllSmaller(cs);
  }

  lemma {:induction false} DescendantsAllSmaller(cs: seq<Html.Node>)
    ensures forall d :: d in DescendantsAll(cs) ==> Size(d) <= SizeAll(cs)
    decreases cs, 1
  {
    if |cs| > 0 {
      DescendantsSmaller(cs[0]);
      DescendantsAllSmaller(cs[1..]);
      var here := [cs[0]] + Descendants(cs[0]);
      assert forall d :: d in DescendantsAll(cs) ==> d in here || d in DescendantsAll(cs[1..]);
    }
  }

  predicate IsSection(n: Html.Node) {
    n.Element? && n.tag == "section"
  }

  /** `element.findAll('section')`. */
  function Sections(n: Html.Node): (r: seq<Html.Node>)
    ensures forall s :: s in r <==> s in Descendants(n) && IsSection(s)
    ensures forall s :: s in r ==> Size(s) < Size(n)
  {
    FilterIn(Descendants(n), IsSection);
    DescendantsSmaller(n);
    Filter(Descendants(n), IsSection)
  }

  function Filter(xs: seq<Html.Node>, p: Html.Node -> bool): seq<Html.Node>
    decreases |xs|
  {
    if |xs| == 0 then [] else (if p(xs[0]) then [xs[0]] else []) + Filter(xs[1..], p)
  }

  /** The filter keeps exactly the elements that pass. */
  lemma {:induction false} FilterIn(xs: seq<Html.Node>, p: Html.Node -> bool)
    ensures forall x :: x in Filter(xs, p) <==> x in xs && p(x)
    decreases |xs|
  {
    if |xs| > 0 {
      FilterIn(xs[1..], p);
      assert forall x :: x in xs <==> x == xs[0] || x in xs[1..];
    }
  }

  /** The first element kept is the first element that passes. */
  lemma {:induction false} FilterFirst(xs: seq<Html.Node>, p: Html.Node -> bool)
    ensures |Filter(xs, p)| > 0 ==>
              exists i :: 0 <= i < |xs| && xs[i] == Filter(xs, p)[0] && forall j :: 0 <= j < i ==> !p(xs[j])
    decreases |xs|
  {
    if |xs| > 0 && !p(xs[0]) && |Filter(xs[1..], p)| > 0 {
      FilterFirst(xs[1..], p);
      var i :| 0 <= i < |xs[1..]| && xs[1..][i] == Filter(xs[1..], p)[0] && forall j :: 0 <= j < i ==> !p(xs[1..][j]);
      assert xs[i + 1] == Filter(xs, p)[0];
      assert forall j :: 0 <= j < i + 1 ==> !p(xs[j]) by {
        forall j | 0 <= j < i + 1 ensures !p(xs[j]) {
          if j > 0 {
            assert xs[j] == xs[1..][j - 1];
          }
        }
      }
    }
  }

  /** The tag name matches `h[1-6]` somewhere, as `re.compile` matching
      searches. */
  predicate HeadingTag(tag: string) {
    exists i :: 0 <= i < |tag| - 1 && tag[i] == 'h' && '1' <= tag[i + 1] <= '6'
  }

  predicate IsHeading(n: Html.Node) {
    n.Element? && HeadingTag(n.tag)
  }

  /** `s.find(re.compile(r"h[1-6]"))`: the first heading under `s`. */
  function Heading(s: Html.Node): Option<Html.Node> {
    var hs := Filter(Descendants(s), IsHeading);
    if |hs| == 0 then None else Some(hs[0])
  }

  /** The heading found lies under the section and is the first heading
      in document order; none is found exactly when the section holds no
      heading. */
  lemma HeadingFirst(s: Html.Node)
    ensures Heading(s).Some? ==> Heading(s).value in Descendants(s) && IsHeading(Heading(s).value)
    ensures Heading(s).None? <==> forall d :: d in Descendants(s) ==> !IsHeading(d)
    ensures Heading(s).Some? ==>
              exists i :: 0 <= i < |Descendants(s)| && Descendants(s)[i] == Heading(s).value
                          && forall j :: 0 <= j < i ==> !IsHeading(Descendants(s)[j])
  {
    FilterIn(Descendants(s), IsHeading);
    FilterFirst(Descendants(s), IsHeading);
  }

  // ---------------------------------------------------------- the outline

  /** One outline entry. */
  datatype Entry = Entry(id: string, title: string, children: seq<Entry>, url: string)

  /** Whether a section can become an entry: it has an `id` and a
      heading. */
  predicate Complete(s: Html.Node) {
    s.Element? && s.id.Some? && Heading(s).Some?
  }

  /** What an entry takes from its section: the section's `id`, the cleaned
      text of its first heading, and the page url. */
  predicate EntryOf(s: Html.Node, e: Entry, url: string) {
    && s.Element? && s.id == Some(e.id)
    && Heading(s).Some?
    && e.title == Typography.UnTypography(Html.TextOf(Heading(s).value))
    && e.url == url
  }

  /** `tocFromElement(element, url)`: an entry for every section under the
      element, however deep; a section without an `id` raises `KeyError`,
      one without a heading `AttributeError`. */
  function Toc(n: Html.Node, url: string): (r: Outcome<seq<Entry>>)
    ensures r.Ok? ==> |r.value| == |Sections(n)|
    ensures r.Ok? ==> forall s :: s in Sections(n) ==> Complete(s)
    ensures r.Err? ==> r.error == KeyError("id") || r.error == AttributeError
    decreases Size(n), 1
  {
    TocAll(Sections(n), Size(n), url)
  }

  function TocAll(ss: seq<Html.Node>, bound: nat, url: string): (r: Outcome<seq<Entry>>)
    requires forall s :: s in ss ==> Size(s) < bound
    ensures r.Ok? ==> |r.value| == |ss|
    ensures r.Ok? ==> forall s :: s in ss ==> Complete(s)
    ensures r.Err? ==> r.error == KeyError("id") || r.error == AttributeError
    decreases bound, 0, |ss|
  {
    if |ss| == 0 then Ok([])
    else
      var s := ss[0];
      if !s.Element? || s.id.None? then Err(KeyError("id"))
      else
        var h := Heading(s);
        if h.None? then Err(AttributeError)
        else
          var children := Toc(s, url);
          if children.Err? then Err(children.error)
          else
            var rest := TocAll(ss[1..], bound, url);
            if rest.Err? then Err(rest.error)
            else
              assert forall x :: x in ss ==> x == s || x in ss[1..];
              Ok([Entry(s.id.value, Typography.UnTypography(Html.TextOf(h.value)), children.value, url)] + rest.value)
  }

  /** Each entry comes from the section at its place: the section's `id`,
      its first heading's cleaned text, the page url, and the section's
      own outline as children. */
  lemma TocEntries(n: Html.Node, url: string)
    ensures var r := Toc(n, url);
            r.Ok? ==> forall k :: 0 <= k < |r.value| ==>
                        EntryOf(Sections(n)[k], r.value[k], url) && Toc(Sections(n)[k], url) == Ok(r.value[k].children)
  {
    TocAllEntries(Sections(n), Size(n), url);
  }

  lemma {:induction false} TocAllEntries(ss: seq<Html.Node>, bound: nat, url: string)
    requires forall s :: s in ss ==> Size(s) < bound
    ensures var r := TocAll(ss, bound, url);
            r.Ok? ==> forall k :: 0 <= k < |ss| ==> EntryOf(ss[k], r.value[k], url) && Toc(ss[k], url) == Ok(r.value[k].children)
    decreases |ss|
  {
    var r := TocAll(ss, bound, url);
    if |ss| > 0 && r.Ok? {
      assert forall x :: x in ss[1..] ==> x in ss;
      var rest := TocAll(ss[1..], bound, url);
      TocAllCons(ss, bound, url);
      TocAllEntries(ss[1..], bound, url);
      forall k | 1 <= k < |ss|
        ensures EntryOf(ss[k], r.value[k], url) && Toc(ss[k], url) == Ok(r.value[k].children)
      {
        assert ss[1..][k - 1] == ss[k] && r.value[k] == rest.value[k - 1];
      }
    }
  }

  /** The first entry of a successful outline, and the rest. */
  lemma TocAllCons(ss: seq<Html.Node>, bound: nat, url: string)
    requires forall s :: s in ss ==> Size(s) < bound
    requires |ss| > 0 && TocAll(ss, bound, url).Ok?
    ensures forall x :: x in ss[1..] ==> Size(x) < bound
    ensures TocAll(ss[1..], bound, url).Ok?
    ensures |TocAll(ss, bound, url).value| == |ss|
    ensures TocAll(ss, bound, url).value[1..] == TocAll(ss[1..], bound, url).value
    ensures EntryOf(ss[0], TocAll(ss, bound, url).value[0], url)
    ensures Toc(ss[0], url) == Ok(TocAll(ss, bound, url).value[0].children)
  {
    assert forall x :: x in ss[1..] ==> x in ss;
  }

  /** What lies under a descendant lies under the ancestor too. */
  lemma {:induction false} DescendantsClosed(n: Html.Node, d: Html.Node)
    requires d in Descendants(n)
    ensures forall e :: e in Descendants(d) ==> e in Descendants(n)
    decreases n, 0
  {
    match n
    case Element(_, _, cs) => DescendantsAllClosed(cs, d);
  }

  lemma {:induction false} DescendantsAllClosed(cs: seq<Html.Node>, d: Html.Node)
    requires d in DescendantsAll(cs)
    ensures forall e :: e in Descendants(d) ==> e in DescendantsAll(cs)
    decreases cs, 1
  {
    var here := Descendants(cs[0]);
    var rest := DescendantsAll(cs[1..]);
    assert DescendantsAll(cs) == [cs[0]] + here + rest;
    if d == cs[0] {
    } else if d in here {
      DescendantsClosed(cs[0], d);
    } else {
      DescendantsAllClosed(cs[1..], d);
    }
  }

  lemma SectionsClosed(n: Html.Node, s: Html.Node)
    requires s in Sections(n)
    ensures forall t :: t in Sections(s) ==> t in Sections(n)
  {
    DescendantsClosed(n, s);
  }

  /** The outline fails only for a bad section: when every section under
      the element has an `id` and a heading, it succeeds. */
  lemma {:induction false} TocOk(n: Html.Node, url: string)
    requires forall s :: s in Sections(n) ==> Complete(s)
    ensures Toc(n, url).Ok?
    decreases Size(n), 1
  {
    TocAllOk(Sections(n), Size(n), url, n);
  }

  lemma {:induction false} TocAllOk(ss: seq<Html.Node>, bound: nat, url: string, n: Html.Node)
    requires forall s :: s in ss ==> Size(s) < bound && s in Sections(n)
    requires forall s :: s in Sections(n) ==> Complete(s)
    ensures TocAll(ss, bound, url).Ok?
    decreases bound, 0, |ss|
  {
    if |ss| > 0 {
      var s := ss[0];
      assert s in ss;
      SectionsClosed(n, s);
      TocOk(s, url);
      assert forall x :: x in ss[1..] ==> x in ss;
      TocAllOk(ss[1..], bound, url, n);
    }
  }

  const ExH1: Html.Node := Html.Element("h1", None, [Html.TextRun("A")])
  const ExH2: Html.Node := Html.Element("h2", None, [Html.TextRun("B")])
  const ExInner: Html.Node := Html.Element("section", Some("b"), [ExH2])
  const ExOuter: Html.Node := Html.Element("section", Some("a"), [ExH1, ExInner])
  const ExDoc: Html.Node := Html.Element("div", None, [ExOuter])

  lemma ExampleDescendants()
    ensures Descendants(ExInner) == [ExH2, Html.TextRun("B")]
    ensures Descendants(ExOuter) == [ExH1, Html.TextRun("A"), ExInner, ExH2, Html.TextRun("B")]
    ensures Descendants(ExDoc) == [ExOuter, ExH1, Html.TextRun("A"), ExInner, ExH2, Html.TextRun("B")]
  {
    LeafDescendants(ExH2, "B");
    Single(ExInner, [ExH2, Html.TextRun("B")]);
    LeafDescendants(ExH1, "A");
    Pair(ExH1, [Html.TextRun("A")], ExInner, [ExH2, Html.TextRun("B")]);
    Single(ExDoc, [ExOuter] + Descendants(ExOuter));
  }

  /** A section inside a section is listed at both levels: once among the
      outer element's entries, and once among its parent's children. */
  lemma NestedListedTwice()
    ensures Sections(ExDoc) == [ExOuter, ExInner]
    ensures Sections(ExOuter) == [ExInner]
  {
    ExampleDescendants();
    var ta := Html.TextRun("A");
    var tb := Html.TextRun("B");
    assert !IsSection(ExH1) && !IsSection(ExH2) && !IsSection(ta) && !IsSection(tb);
    assert IsSection(ExInner) && IsSection(ExOuter);
    var s5 := [tb];
    assert s5[1..] == [];
    assert Filter(s5, IsSection) == [];
    var s4 := [ExH2, tb];
    assert s4[1..] == s5;
    assert Filter(s4, IsSection) == [];
    var s3 := [ExInner, ExH2, tb];
    assert s3[1..] == s4;
    assert Filter(s3, IsSection) == [ExInner];
    var s2 := [ta, ExInner, ExH2, tb];
    assert s2[1..] == s3;
    assert Filter(s2, IsSection) == [ExInner];
    var s1 := [ExH1, ta, ExInner, ExH2, tb];
    assert s1[1..] == s2;
    assert Filter(s1, IsSection) == [ExInner];
    var s0 := [ExOuter, ExH1, ta, ExInner, ExH2, tb];
    assert s0[1..] == s1;
    assert Filter(s0, IsSection) == [ExOuter, ExInner];
  }

  lemma DescendantsCons(c: Html.Node, cs: seq<Html.Node>)
    ensures DescendantsAll([c] + cs) == [c] + Descendants(c) + DescendantsAll(cs)
  {
    assert ([c] + cs)[1..] == cs;
  }

  lemma LeafDescendants(h: Html.Node, t: string)
    requires h.Element? && h.children == [Html.TextRun(t)]
    ensures Descendants(h) == [Html.TextRun(t)]
  {
    DescendantsCons(Html.TextRun(t), []);
    assert [Html.TextRun(t)] + [] == [Html.TextRun(t)];
  }

  lemma Single(n: Html.Node, ds: seq<Html.Node>)
    requires n.Element? && |n.children| == 1 && ds == [n.children[0]] + Descendants(n.children[0])
    ensures Descendants(n) == ds
  {
    DescendantsCons(n.children[0], []);
    assert [n.children[0]] + [] == n.children;
  }

  lemma Pair(a: Html.Node, da: seq<Html.Node>, b: Html.Node, db: seq<Html.Node>)
    requires Descendants(a) == da && Descendants(b) == db
    ensures DescendantsAll([a, b]) == [a] + da + [b] + db
  {
    DescendantsCons(b, []);
    assert [b] + [] == [b];
    DescendantsCons(a, [b]);
    assert [a] + [b] == [a, b];
  }

  lemma FilterCons(x: Html.Node, ys: seq<Html.Node>, p: Html.Node -> bool)
    ensures Filter([x] + ys, p) == (if p(x) then [x] else []) + Filter(ys, p)
  {
    assert ([x] + ys)[1..] == ys;
  }

  // ------------------------------------------------------------ the pages

  /** A page's outline node. */
  datatype OutlineNode = OutlineNode(children: seq<Entry>, page: Page, url: string, title: string)

  /** `nodeFromPage`: None for a page that is not published. */
  function NodeFromPage(p: Page): (r: Outcome<Option<OutlineNode>>)
    ensures !Published(p) ==> r == Ok(None)
    ensures r.Err? ==> r.error == KeyError("id") || r.error == AttributeError
    ensures Published(p) ==> (r.Ok? <==> Toc(Html.Element("[document]", None, p.tree), p.url).Ok?)
    ensures Published(p) && r.Ok? ==>
              && r.value.Some? && r.value.value.page == p && r.value.value.url == p.url && r.value.value.title == p.title
              && r.value.value.children == Toc(Html.Element("[document]", None, p.tree), p.url).value
  {
    if !Published(p) then Ok(None)
    else
      var toc :- Toc(Html.Element("[document]", None, p.tree), p.url);
      Ok(Some(OutlineNode(toc, p, p.url, p.title)))
  }

  function Nodes(ps: seq<Page>): (r: Outcome<seq<Option<OutlineNode>>>)
    ensures r.Err? ==> r.error == KeyError("id") || r.error == AttributeError
    ensures r.Ok? <==> forall k :: 0 <= k < |ps| ==> NodeFromPage(ps[k]).Ok?
    ensures r.Ok? ==> |r.value| == |ps| && forall k :: 0 <= k < |ps| ==> r.value[k] == NodeFromPage(ps[k]).value
    decreases |ps|
  {
    if |ps| == 0 then Ok([])
    else
      assert forall k :: 1 <= k < |ps| ==> ps[1..][k - 1] == ps[k];
      var n :- NodeFromPage(ps[0]);
      var rest :- Nodes(ps[1..]);
      Ok([n] + rest)
  }

  /** The nodes of published pages; a None left by a draft makes the sort
      key `p['page']` raise `TypeError`. */
  function Present(ns: seq<Option<OutlineNode>>): (r: Outcome<seq<OutlineNode>>)
    ensures r.Ok? <==> forall k :: 0 <= k < |ns| ==> ns[k].Some?
    ensures r.Err? ==> r.error == TypeError
    ensures r.Ok? ==> |r.value| == |ns| && forall k :: 0 <= k < |ns| ==> r.value[k] == ns[k].value
    decreases |ns|
  {
    if |ns| == 0 then Ok([])
    else
      assert forall k :: 1 <= k < |ns| ==> ns[1..][k - 1] == ns[k];
      if ns[0].None? then Err(TypeError)
      else
        var rest :- Present(ns[1..]);
        Ok([ns[0].value] + rest)
  }

  function Date(n: OutlineNode): int {
    n.page.date
  }

  /** The grouping key: categories compare equal exactly when their slugs
      do. */
  function CategoryOf(n: OutlineNode): Option<string> {
    if n.page.category.Some? then Some(n.page.category.value.slug) else None
  }

  function DateLe(a: int, b: int): bool {
    a <= b
  }

  /** `generate_output`: the nodes sorted by date, then grouped by runs of
      equal category. */
  function Generate(ps: seq<Page>): (r: Outcome<seq<Grouping.Group<Option<string>, OutlineNode>>>)
    ensures r.Ok? <==> Nodes(ps).Ok? && forall k :: 0 <= k < |ps| ==> Published(ps[k])
    ensures r.Ok? ==> Grouping.Flatten(r.value) == Grouping.Sort(Present(Nodes(ps).value).value, Date, DateLe)
    ensures r.Err? && Nodes(ps).Ok? ==> r.error == TypeError
    ensures r.Err? && Nodes(ps).Err? ==> r.error == KeyError("id") || r.error == AttributeError
  {
    var ns :- Nodes(ps);
    assert forall k :: 0 <= k < |ps| ==> (ns[k].Some? <==> Published(ps[k]));
    var present :- Present(ns);
    Ok(Grouping.GroupBy(Grouping.Sort(present, Date, DateLe), CategoryOf))
  }

  /** The outline lists every published page once, in date order, each
      group a run of one category. */
  lemma GenerateShape(ps: seq<Page>)
    requires Generate(ps).Ok?
    ensures var gs := Generate(ps).value;
            var flat := Grouping.Flatten(gs);
            && multiset(flat) == multiset(Present(Nodes(ps).value).value)
            && (forall i, j :: 0 <= i < j < |flat| ==> flat[i].page.date <= flat[j].page.date)
            && (forall g, m :: 0 <= g < |gs| && 0 <= m < |gs[g].members| ==> CategoryOf(gs[g].members[m]) == gs[g].key)
            && (forall g :: 0 <= g < |gs| - 1 ==> gs[g].key != gs[g + 1].key)
  {
    var present := Present(Nodes(ps).value).value;
    Grouping.SortPerm(present, Date, DateLe);
    assert Grouping.TotalPreorder(DateLe);
    Grouping.SortSorted(present, Date, DateLe);
  }

  /** Sorting is by date alone, so one category can form several groups:
      pages in categories A, B, A by date give three groups. */
  lemma CategorySplit(a1: OutlineNode, b: OutlineNode, a2: OutlineNode)
    requires CategoryOf(a1) == Some("A") && CategoryOf(b) == Some("B") && CategoryOf(a2) == Some("A")
    requires a1.page.date < b.page.date < a2.page.date
    ensures var gs := Grouping.GroupBy(Grouping.Sort([a2, a1, b], Date, DateLe), CategoryOf);
            |gs| == 3 && gs[0].key == Some("A") && gs[1].key == Some("B") && gs[2].key == Some("A")
  {
    var s := Grouping.Sort([a2, a1, b], Date, DateLe);
    assert Grouping.Sort([b], Date, DateLe) == [b];
    assert [a1, b][1..] == [b];
    assert Grouping.Sort([a1, b], Date, DateLe) == [a1, b];
    assert [a2, a1, b][1..] == [a1, b];
    assert Grouping.Insert(a2, [b], Date, DateLe) == [b, a2];
    assert s == [a1, b, a2];
    assert Grouping.GroupBy([a2], CategoryOf) == [Grouping.Group(Some("A"), [a2])];
    assert [b, a2][1..] == [a2];
    assert Grouping.GroupBy([b, a2], CategoryOf) == [Grouping.Group(Some("B"), [b]), Grouping.Group(Some("A"), [a2])];
    assert [a1, b, a2][1..] == [b, a2];
  }

  /** The outline of the site: its pages, its articles and their
      translations. */
  function Outline(pages: seq<Page>, articles: seq<Page>, translations: Page -> seq<Page>): (r: Outcome<seq<Grouping.Group<Option<string>, OutlineNode>>>)
    ensures r.Ok? ==> |Grouping.Flatten(r.value)| == |Gather(pages, articles, translations)|
    ensures r.Ok? ==> forall p :: p in articles ==> Published(p)
  {
    var all := Gather(pages, articles, translations);
    ArticlesListed(pages, articles, translations);
    Generate(all)
  }

  lemma ArticlesListed(pages: seq<Page>, articles: seq<Page>, translations: Page -> seq<Page>)
    ensures var all := Gather(pages, articles, translations);
            forall k :: 0 <= k < |articles| ==> all[|pages| + k] == articles[k]
  {
    var all := Gather(pages, articles, translations);
    forall k | 0 <= k < |articles| ensures all[|pages| + k] == articles[k] {
      assert all[..|pages| + |articles|][|pages| + k] == (pages + articles)[|pages| + k];
    }
  }
}
