/** A page or article as the site index generators read it from the
    generator context. */
module Pages {
  import opened Wrappers
  import Html

  /** A Pelican category: its name and its slug. Two categories are equal
      when their slugs are, and a category equals a string whose slug is
      its own. */
  datatype Category = Category(name: string, slug: string)

  /** The slug of the string 'None' under Pelican's default slug settings. */
  const NoneSlug: string := "none"

  /** Its `status` (None when it has none), its title as written and the
      text strings of that title parsed as HTML, its parsed content (the
      anchors and text, and the element tree), its category (None when it
      has none), its `url` and its date as a timestamp. */
  datatype Page = Page(status: Option<string>, title: string, titleStrings: seq<string>,
                       body: Html.Body, tree: seq<Html.Node>,
                       category: Option<Category>, url: string, date: int)

  /** `getattr(page, 'status', 'published') == 'published'`. */
  predicate Published(p: Page) {
    p.status.None? || p.status.value == "published"
  }

  /** `page.category.name if getattr(page, 'category', 'None') != 'None'
      else ''`: a page without a category yields the string 'None', and a
      category compared with 'None' is compared by slug. */
  function CategoryName(p: Page): (r: string)
    ensures r == "" <==> p.category.None? || p.category.value.slug == NoneSlug || p.category.value.name == ""
    ensures r != "" ==> r == p.category.value.name
  {
    if p.category.Some? && p.category.value.slug != NoneSlug then p.category.value.name else ""
  }

  /** A category whose slug is "none" is written as no category, whatever
      its name, while any other keeps its name. */
  lemma NoneSlugBlank(p: Page, q: Page)
    requires p.category == Some(Category("NONE", "none"))
    requires q.category == Some(Category("Nonesuch", "nonesuch"))
    ensures CategoryName(p) == "" && CategoryName(q) == "Nonesuch"
  {
  }

  /** Each article's translations, article by article. */
  function Translations(articles: seq<Page>, translations: Page -> seq<Page>): seq<Page>
    decreases |articles|
  {
    if |articles| == 0 then [] else translations(articles[0]) + Translations(articles[1..], translations)
  }

  /** The list the index generators walk: the pages, the articles, then
      every article's translations. */
  function Gather(pages: seq<Page>, articles: seq<Page>, translations: Page -> seq<Page>): (r: seq<Page>)
    ensures |r| >= |pages| + |articles| && r[..|pages| + |articles|] == pages + articles
    ensures forall p :: p in r <==> p in pages || p in articles || exists a :: a in articles && p in translations(a)
  {
    TranslationsIn(articles, translations);
    var r := pages + articles + Translations(articles, translations);
    assert r[..|pages| + |articles|] == pages + articles;
    r
  }

  lemma {:induction false} TranslationsIn(articles: seq<Page>, translations: Page -> seq<Page>)
    ensures forall p :: p in Translations(articles, translations) <==> exists a :: a in articles && p in translations(a)
    decreases |articles|
  {
    if |articles| > 0 {
      TranslationsIn(articles[1..], translations);
      assert forall a :: a in articles <==> a == articles[0] || a in articles[1..];
    }
  }
}
