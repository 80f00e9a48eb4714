/** Rewriting the Markdown that embeds posts: `replaceBlanksInFile` in the
    current plugin (perma_social/common.py:250-282) and the earlier one
    (perma_social.py:232-254), the earlier plugin's command-line batch
    (perma_social.py:575-583), and the `bs_htmlize` template filter
    (perma_social/common.py:285-301, perma_social.py:257-269). */
module Markup {
  import opened Wrappers
  import opened Json
  import opened Social
  import opened Links
  import opened Engine
  import Text
  import Paths
  import Mastodon
  import Twitter
  import Bluesky

  // ------------------------------------------------------------- matching

  /** `re.match(LINK_RE, s[i:])` with the adapter's own pattern. */
  function LinkAt(a: Adapter, s: string, i: nat): (m: Option<LinkMatch>)
    requires i <= |s|
    ensures m.Some? ==> m.value.start == i < m.value.end <= |s|
  {
    match a
    case Twitter => Twitter.LinkAt(s, i)
    case Bluesky => Bluesky.LinkAt(s, i)
    case OldBluesky => Bluesky.LinkAt(s, i)
    case Mastodon => Mastodon.LinkAt(s, i, true)
    case OldMastodon => Mastodon.LinkAt(s, i, false)
  }

  /** `EMBED_NOTITLE_RE`, the link pattern between the look-behind "![](" and
      the look-ahead ")". The Twitter pattern ends in a lazy `.*?`, which
      the look-ahead stretches up to the first ')' on the same line; the
      other patterns end in a run that stops at ')', so the ')' must follow
      at once. */
  function EmbedAt(a: Adapter, s: string, i: nat): (m: Option<LinkMatch>)
    requires i <= |s|
    ensures m.Some? ==> AfterBlankImage(s, i) && m.value.start == i < m.value.end < |s| && s[m.value.end] == ')'
    ensures m.Some? ==> LinkAt(a, s, i).Some? && LinkAt(a, s, i).value.end <= m.value.end
  {
    if !AfterBlankImage(s, i) then None
    else match LinkAt(a, s, i)
      case None => None
      case Some(m) =>
        if a == Twitter then
          var k := RunEnd(s, m.end, {')', '\n'});
          if k < |s| && s[k] == ')' then Some(m.(end := k)) else None
        else if m.end < |s| && s[m.end] == ')' then Some(m)
        else None
  }

  /** The pattern `replaceBlanksInFile` searches for: the no-title embed when
      only uncaptioned embeds are replaced, else the bare link. */
  function MatchAt(a: Adapter, notitle: bool, s: string, i: nat): (m: Option<LinkMatch>)
    requires i <= |s|
    ensures m.Some? ==> m.value.start == i < m.value.end <= |s|
  {
    if notitle then EmbedAt(a, s, i) else LinkAt(a, s, i)
  }

  /** Matches in text order that do not overlap, all within `[lo, hi]`. */
  predicate Laid(ms: seq<LinkMatch>, lo: nat, hi: nat) {
    (forall k :: 0 <= k < |ms| ==> lo <= ms[k].start < ms[k].end <= hi)
    && (forall k :: 0 <= k < |ms| - 1 ==> ms[k].end <= ms[k + 1].start)
  }

  /** `re.finditer(pattern, s)` from position `i`: a match found at a
      position resumes the search where it ends, a miss moves one character
      on. */
  function Scan(a: Adapter, notitle: bool, s: string, i: nat): (ms: seq<LinkMatch>)
    requires i <= |s|
    ensures Laid(ms, i, |s|)
    ensures forall k :: 0 <= k < |ms| ==> MatchAt(a, notitle, s, ms[k].start) == Some(ms[k])
    decreases |s| - i
  {
    if i == |s| then []
    else match MatchAt(a, notitle, s, i)
      case Some(m) => [m] + Scan(a, notitle, s, m.end)
      case None => Scan(a, notitle, s, i + 1)
  }

  /** No match of `ms` covers position `j` past its start. */
  predicate Uncovered(ms: seq<LinkMatch>, j: nat) {
    forall k :: 0 <= k < |ms| ==> !(ms[k].start < j < ms[k].end)
  }

  /** `finditer` misses nothing: every position where the pattern matches,
      and that no earlier match covers, is the start of a reported match. */
  lemma {:induction false} ScanComplete(a: Adapter, notitle: bool, s: string, i: nat, j: nat)
    requires i <= j <= |s| && MatchAt(a, notitle, s, j).Some?
    requires Uncovered(Scan(a, notitle, s, i), j)
    ensures MatchAt(a, notitle, s, j).value in Scan(a, notitle, s, i)
    decreases |s| - i
  {
    if i < |s| {
      var here := MatchAt(a, notitle, s, i);
      if here.None? {
        assert Scan(a, notitle, s, i) == Scan(a, notitle, s, i + 1);
        ScanComplete(a, notitle, s, i + 1, j);
      } else if j != i {
        var m := here.value;
        var rest := Scan(a, notitle, s, m.end);
        assert Scan(a, notitle, s, i) == [m] + rest;
        UncoveredTail(m, rest, j);
        ScanComplete(a, notitle, s, m.end, j);
      }
    }
  }

  lemma UncoveredTail(m: LinkMatch, rest: seq<LinkMatch>, j: nat)
    requires Uncovered([m] + rest, j) && m.start < j
    ensures Uncovered(rest, j) && m.end <= j
  {
    assert ([m] + rest)[0] == m;
    forall k | 0 <= k < |rest|
      ensures !(rest[k].start < j < rest[k].end)
    {
      assert rest[k] == ([m] + rest)[k + 1];
    }
  }

  /** `PostRef(**match.groupdict())`. */
  function RefOf(a: Adapter, m: LinkMatch): (r: Ref)
    ensures r.userId == Some(m.user) && r.postId == m.post && r.cls == Sub
    ensures r.instance.Some? <==> a.Fedi()
  {
    if a.Fedi() then TootRef(m.instance, m.post, Some(m.user)) else PostRef(Some(m.user), m.post)
  }

  /** `match.groupdict()`, as the template receives it. */
  function Groups(a: Adapter, m: LinkMatch): map<string, string> {
    if a.Fedi() then map["instance" := m.instance, "user_id" := m.user, "post_id" := m.post]
    else map["user_id" := m.user, "post_id" := m.post]
  }

  // ------------------------------------------------------------ rewriting

  /** The text being rewritten and whether any replacement happened. */
  datatype Draft = Draft(body: string, dirty: bool)

  /** What `body.replace` looks for: the uncaptioned prefix (when only
      uncaptioned embeds are replaced) and "](" before the matched text. */
  function Whole(s: string, m: LinkMatch, notitle: bool): string
    requires m.start <= m.end <= |s|
  {
    (if notitle then "![" else "") + "](" + s[m.start..m.end]
  }

  /** The loop over the matches of the original text `s` from match `k` on,
      with the text as rewritten so far in `d`. A failed lookup skips the
      match in the current plugin and ends the run in the earlier one; a
      failed rendering ends the run in both. Each rendered match replaces
      every occurrence of its prefix, "](" and matched text. */
  function Fill(cfg: Config, w: World, s: string, ms: seq<LinkMatch>, k: nat, d: Draft, notitle: bool, fuel: nat): (res: (World, Outcome<Draft>))
    requires k <= |ms| && Laid(ms, 0, |s|)
    ensures Prefix(w.trace, res.0.trace)
    ensures res.1.Ok? && !res.1.value.dirty ==> res.1.value == d
    ensures res.1.Ok? && d.dirty ==> res.1.value.dirty
    decreases |ms| - k
  {
    if k == |ms| then (w, Ok(d))
    else
      var m := ms[k];
      var look := Resolve(cfg, w, RefOf(cfg.a, m), true, [], fuel);
      if look.1.Err? then
        if cfg.a.Legacy() then (look.0, Err(look.1.error))
        else
          var res := Fill(cfg, look.0, s, ms, k + 1, d, notitle, fuel);
          PrefixTrans(w.trace, look.0.trace, res.0.trace);
          res
      else match cfg.env.render(cfg.a, Groups(cfg.a, m), look.1.value)
        case Err(e) => (look.0, Err(e))
        case Ok(html) =>
          var prefix := if notitle then "![" else "";
          var next := Draft(Text.Replace(d.body, Whole(s, m, notitle), prefix + html), true);
          var res := Fill(cfg, look.0, s, ms, k + 1, next, notitle, fuel);
          PrefixTrans(w.trace, look.0.trace, res.0.trace);
          res
  }

  /** `replaceBlanksInFile(file, replace_only_uncaptioned=notitle)`, with
      `fuel` lookups of recursion depth. The outcome says whether the file
      was written back: only a dirty text is, as the last step. A file that
      is missing or not text cannot be read. */
  function ReplaceBlanks(cfg: Config, w: World, file: string, notitle: bool, fuel: nat): (res: (World, Outcome<bool>))
    ensures Prefix(w.trace, res.0.trace)
    ensures res.1.Ok? ==> file in w.disk && w.disk[file].Text?
    ensures res.1 == Ok(true) ==>
              |res.0.trace| > |w.trace| && res.0.trace[|res.0.trace| - 1] == Rewrite(file)
              && file in res.0.disk && res.0.disk[file].Text?
  {
    if file !in w.disk then (w, Err(FileNotFound(file)))
    else if !w.disk[file].Text? then (w, Err(DecodeError(file)))
    else
      var s := w.disk[file].body;
      var ms := Scan(cfg.a, notitle, s, 0);
      var run := Fill(cfg, w, s, ms, 0, Draft(s, false), notitle, fuel);
      match run.1
      case Err(e) => (run.0, Err(e))
      case Ok(d) =>
        if d.dirty then
          var w2 := run.0.Put(file, Text(d.body), Rewrite(file));
          PrefixTrans(w.trace, run.0.trace, w2.trace);
          (w2, Ok(true))
        else (run.0, Ok(false))
  }

  /** A text in which the pattern finds nothing is neither looked up nor
      written back. */
  lemma NoMatchNoWrite(cfg: Config, w: World, file: string, notitle: bool, fuel: nat)
    requires file in w.disk && w.disk[file].Text? && Scan(cfg.a, notitle, w.disk[file].body, 0) == []
    ensures ReplaceBlanks(cfg, w, file, notitle, fuel) == (w, Ok(false))
  {
  }

  /** A lookup that fails whatever the world. */
  ghost predicate Hopeless(cfg: Config, m: LinkMatch, fuel: nat) {
    forall v: World :: Resolve(cfg, v, RefOf(cfg.a, m), true, [], fuel).1.Err?
  }

  /** In the current plugin, matches whose lookups all fail leave the text
      as it was and not dirty: the file is not written. */
  lemma {:induction false} ModernSkipsFailures(cfg: Config, w: World, s: string, ms: seq<LinkMatch>, k: nat, d: Draft, notitle: bool, fuel: nat)
    requires !cfg.a.Legacy() && k <= |ms| && Laid(ms, 0, |s|)
    requires forall j :: k <= j < |ms| ==> Hopeless(cfg, ms[j], fuel)
    ensures Fill(cfg, w, s, ms, k, d, notitle, fuel).1 == Ok(d)
    decreases |ms| - k
  {
    if k < |ms| {
      var look := Resolve(cfg, w, RefOf(cfg.a, ms[k]), true, [], fuel);
      assert look.1.Err?;
      ModernSkipsFailures(cfg, look.0, s, ms, k + 1, d, notitle, fuel);
    }
  }

  /** In the earlier plugin, one match whose lookup fails makes the whole
      run fail, so the file is never written. */
  lemma {:induction false} LegacyAbortsOnFailure(cfg: Config, w: World, s: string, ms: seq<LinkMatch>, k: nat, d: Draft, notitle: bool, fuel: nat, bad: nat)
    requires cfg.a.Legacy() && k <= bad < |ms| && Laid(ms, 0, |s|)
    requires Hopeless(cfg, ms[bad], fuel)
    ensures Fill(cfg, w, s, ms, k, d, notitle, fuel).1.Err?
    decreases |ms| - k
  {
    var look := Resolve(cfg, w, RefOf(cfg.a, ms[k]), true, [], fuel);
    if k < bad && look.1.Ok? && cfg.env.render(cfg.a, Groups(cfg.a, ms[k]), look.1.value).Ok? {
      var html := cfg.env.render(cfg.a, Groups(cfg.a, ms[k]), look.1.value).value;
      var prefix := if notitle then "![" else "";
      var next := Draft(Text.Replace(d.body, Whole(s, ms[k], notitle), prefix + html), true);
      LegacyAbortsOnFailure(cfg, look.0, s, ms, k + 1, next, notitle, fuel, bad);
    } else if k == bad {
      assert look.1.Err?;
    }
  }

  /** The run is written back exactly when some lookup and rendering
      succeeded: a lookup that succeeds and renders dirties the text, and
      the dirty flag never clears. */
  lemma RenderedIsDirty(cfg: Config, w: World, s: string, ms: seq<LinkMatch>, k: nat, d: Draft, notitle: bool, fuel: nat)
    requires k < |ms| && Laid(ms, 0, |s|)
    requires var look := Resolve(cfg, w, RefOf(cfg.a, ms[k]), true, [], fuel);
             look.1.Ok? && cfg.env.render(cfg.a, Groups(cfg.a, ms[k]), look.1.value).Ok?
    ensures var res := Fill(cfg, w, s, ms, k, d, notitle, fuel);
            res.1.Ok? ==> res.1.value.dirty
  {
  }

  // ----------------------------------------------------- a blank embed

  /** The text of a lone uncaptioned embed of `link`. */
  function Blank(link: string): string {
    "![](" + link + ")"
  }

  /** A lone uncaptioned embed is found once, with the groups the link
      pattern gives it. */
  lemma BlankFoundOnce(a: Adapter, link: string, m: LinkMatch)
    requires a != Twitter && LinkAt(a, Blank(link), 4) == Some(m) && m.end == 4 + |link|
    ensures Scan(a, true, Blank(link), 0) == [m]
  {
    var s := Blank(link);
    assert s[0..4] == "![](";
    assert s[m.end] == ')';
    assert EmbedAt(a, s, 4) == Some(m);
    assert Scan(a, true, s, m.end) == [] by {
      assert LinkAt(a, s, m.end) == None;
    }
    assert Scan(a, true, s, 3) == [m];
    assert Scan(a, true, s, 2) == [m];
    assert Scan(a, true, s, 1) == [m];
  }

  /** Round trip through the Bluesky embed: the uncaptioned embed of a post
      link is found once and looked up as that post. */
  lemma BlueskyBlankRoundTrip(www: bool, user: string, post: string)
    requires Paths.Plain(user) && |post| > 0 && ' ' !in post && ')' !in post
    ensures var ms := Scan(Bluesky, true, Blank(Bluesky.Link(www, user, post)), 0);
            |ms| == 1 && RefOf(Bluesky, ms[0]) == PostRef(Some(user), post)
  {
    var link := Bluesky.Link(www, user, post);
    Bluesky.LinkRoundTrip("![](", www, user, post, ")");
    assert "![](" + link + ")" == Blank(link);
    BlankFoundOnce(Bluesky, link, LinkMatch(4, 4 + |link|, "", user, post));
  }

  /** Round trip through the Mastodon embed: the uncaptioned embed of a toot
      link is found once and looked up as that toot, author included. */
  lemma MastodonBlankRoundTrip(instance: string, user: string, post: string)
    requires Paths.Plain(instance) && Paths.Plain(user)
    requires |post| > 0 && ' ' !in post && ')' !in post && !Text.StartsWith(post, "statuses/")
    ensures var ms := Scan(Mastodon, true, Blank(Mastodon.Link(instance, user, post)), 0);
            |ms| == 1 && RefOf(Mastodon, ms[0]) == TootRef(instance, post, Some(user))
  {
    var link := Mastodon.Link(instance, user, post);
    Mastodon.LinkRoundTrip("![](", instance, user, post, ")", true);
    assert "![](" + link + ")" == Blank(link);
    BlankFoundOnce(Mastodon, link, LinkMatch(4, 4 + |link|, instance, user, post));
  }

  // ---------------------------------------------------------------- batch

  /** The earlier plugin's command line: every file, first through the
      Bluesky adapter and then through the Mastodon one, with no handler, so
      the first failure ends the batch. */
  function Batch(env: Env, w: World, files: seq<string>, fuel: nat): (res: (World, Outcome<()>))
    ensures Prefix(w.trace, res.0.trace)
    decreases |files|
  {
    if |files| == 0 then (w, Ok(()))
    else
      var sky := ReplaceBlanks(Config(OldBluesky, env, AsWritten), w, files[0], true, fuel);
      if sky.1.Err? then (sky.0, Err(sky.1.error))
      else
        var toot := ReplaceBlanks(Config(OldMastodon, env, AsWritten), sky.0, files[0], true, fuel);
        PrefixTrans(w.trace, sky.0.trace, toot.0.trace);
        if toot.1.Err? then (toot.0, Err(toot.1.error))
        else
          var rest := Batch(env, toot.0, files[1..], fuel);
          PrefixTrans(w.trace, toot.0.trace, rest.0.trace);
          rest
  }

  /** The batch runs file lists one after the other: a failure in the
      first part is the failure of the whole, and nothing of the second
      part runs. */
  lemma {:induction false} BatchSplits(env: Env, w: World, xs: seq<string>, ys: seq<string>, fuel: nat)
    ensures var first := Batch(env, w, xs, fuel);
            Batch(env, w, xs + ys, fuel)
              == if first.1.Err? then first else Batch(env, first.0, ys, fuel)
    decreases |xs|
  {
    if |xs| == 0 {
      assert xs + ys == ys;
    } else {
      assert (xs + ys)[0] == xs[0];
      assert (xs + ys)[1..] == xs[1..] + ys;
      var sky := ReplaceBlanks(Config(OldBluesky, env, AsWritten), w, xs[0], true, fuel);
      if sky.1.Ok? {
        var toot := ReplaceBlanks(Config(OldMastodon, env, AsWritten), sky.0, xs[0], true, fuel);
        if toot.1.Ok? {
          BatchSplits(env, toot.0, xs[1..], ys, fuel);
        }
      }
    }
  }

  // ----------------------------------------------------------- bs_htmlize

  /** A line break or a paragraph break of the post text, as the filter
      rewrites it. */
  const Break: string := "</p><p>"

  /** The text split into paragraphs: "\n\n" and then "\n" become a
      paragraph break, inside one outer paragraph. */
  function Paragraphs(text: string): string {
    "<p>" + Text.Replace(Text.Replace(text, "\n\n", Break), "\n", Break) + "</p>"
  }

  /** The link markup for a facet's URI. */
  function LinkHtml(uri: string): string {
    "<a href='" + uri + "'>" + uri + "</a>"
  }

  /** The facet feature types the current filter passes over. */
  predicate Ignored(t: string) {
    t == "app.bsky.richtext.facet#mention" || t == "app.bsky.richtext.facet#tag"
  }

  const LinkType: string := "app.bsky.richtext.facet#link"

  /** The features of one facet from feature `k` on. A link replaces every
      occurrence of its URI; a mention or tag is passed over by the current
      filter only; anything else raises `NotImplementedError`. */
  function Features(p: string, fs: seq<Json>, k: nat, legacy: bool): (r: Outcome<string>)
    requires k <= |fs|
    decreases |fs| - k
  {
    if k == |fs| then Ok(p)
    else
      var t :- Index(fs[k], "$type");
      if t == JStr(LinkType) then
        var u :- Index(fs[k], "uri");
        var uri :- AsStr(u);
        Features(Text.Replace(p, uri, LinkHtml(uri)), fs, k + 1, legacy)
      else if !legacy && t.JStr? && Ignored(t.s) then Features(p, fs, k + 1, legacy)
      else Err(NotImplementedError)
  }

  /** The facets from facet `k` on. */
  function Facets(p: string, facets: seq<Json>, k: nat, legacy: bool): (r: Outcome<string>)
    requires k <= |facets|
    decreases |facets| - k
  {
    if k == |facets| then Ok(p)
    else
      var fj :- Index(facets[k], "features");
      var fs :- Iterate(fj);
      var p2 :- Features(p, fs, 0, legacy);
      Facets(p2, facets, k + 1, legacy)
  }

  /** `bs_htmlize(text, facets)`. The current filter treats missing facets
      (`facets or []`) as none; the earlier one iterates them as given. */
  function Htmlize(text: string, facets: Json, legacy: bool): (r: Outcome<string>)
    ensures !legacy && !Truthy(facets) ==> r == Ok(Paragraphs(text))
  {
    var fs :- Iterate(if legacy then facets else Or(facets, JArr([])));
    Facets(Paragraphs(text), fs, 0, legacy)
  }

  /** Replacing every "\n" by a text without one leaves no "\n". */
  lemma {:induction false} ReplaceRemovesNewlines(s: string, rep: string)
    requires '\n' !in rep
    ensures '\n' !in Text.Replace(s, "\n", rep)
    decreases |s|
  {
    if |s| >= 1 {
      ReplaceRemovesNewlines(s[1..], rep);
    }
  }

  /** The paragraphs contain no line break: every "\n" became a paragraph
      break. */
  lemma ParagraphsFlat(text: string)
    ensures '\n' !in Paragraphs(text)
  {
    ReplaceRemovesNewlines(Text.Replace(text, "\n\n", Break), Break);
  }

  /** A feature list that only links: both filters agree on it. */
  predicate OnlyLinks(fs: seq<Json>) {
    forall k :: 0 <= k < |fs| ==> Index(fs[k], "$type") == Ok(JStr(LinkType))
  }

  /** On features that are all links the earlier filter and the current one
      produce the same text. */
  lemma {:induction false} LinksAgree(p: string, fs: seq<Json>, k: nat)
    requires k <= |fs| && OnlyLinks(fs)
    ensures Features(p, fs, k, true) == Features(p, fs, k, false)
    decreases |fs| - k
  {
    if k < |fs| {
      var u := Index(fs[k], "uri");
      if u.Ok? && AsStr(u.value).Ok? {
        LinksAgree(Text.Replace(p, AsStr(u.value).value, LinkHtml(AsStr(u.value).value)), fs, k + 1);
      }
    }
  }

  /** A mention leaves the current filter's text as it is and makes the
      earlier filter raise. */
  lemma MentionDiffers(p: string, uri: string)
    ensures var f := JObj(map["$type" := JStr("app.bsky.richtext.facet#mention")]);
            Features(p, [f], 0, false) == Ok(p) && Features(p, [f], 0, true) == Err(NotImplementedError)
  {
    var f := JObj(map["$type" := JStr("app.bsky.richtext.facet#mention")]);
    assert Index(f, "$type") == Ok(JStr("app.bsky.richtext.facet#mention"));
    assert JStr("app.bsky.richtext.facet#mention") != JStr(LinkType);
  }

  /** Without facets the earlier filter cannot iterate `None`, while the
      current one returns the paragraphs. */
  lemma NoFacets(text: string)
    ensures Htmlize(text, JNull, false) == Ok(Paragraphs(text))
    ensures Htmlize(text, JNull, true) == Err(TypeError)
  {
  }
}
