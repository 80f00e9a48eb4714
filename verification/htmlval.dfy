/** The htmlval plugin (htmlval.py): every in-page link whose fragment names
    no element of the body is reported, in one logged error per content
    object. The body itself is never changed. */
module HtmlVal {
  import opened Wrappers
  import Text
  import opened Html

  /** A link to a fragment that no `id` in the body carries. */
  predicate Dangling(a: Anchor, ids: set<string>) {
    a.href.Some? && Text.StartsWith(a.href.value, "#") && a.href.value[1..] !in ids
  }

  function IdSet(body: Body): set<string> {
    set i | 0 <= i < |body.ids| :: body.ids[i]
  }

  /** The anchors the loop reports, in document order. */
  function Issues(anchors: seq<Anchor>, ids: set<string>): (r: seq<Anchor>)
    ensures forall a :: a in r ==> a in anchors && Dangling(a, ids)
    ensures forall k :: 0 <= k < |anchors| && Dangling(anchors[k], ids) ==> anchors[k] in r
    ensures |r| == CountIf(anchors, (a: Anchor) => Dangling(a, ids))
    decreases |anchors|
  {
    if |anchors| == 0 then []
    else
      var rest := Issues(anchors[1..], ids);
      assert forall k :: 1 <= k < |anchors| ==> anchors[k] == anchors[1..][k - 1];
      if Dangling(anchors[0], ids) then [anchors[0]] + rest else rest
  }

  function Message(show: Anchor -> string, a: Anchor): string {
    "'" + show(a) + "' backlink has no referent"
  }

  /** `content_object_init`: the error logged for the body, if any. `show`
      is how BeautifulSoup prints an anchor, and `path` the content's
      relative source path. */
  function Check(content: Option<Body>, show: Anchor -> string, path: string): (r: Option<string>)
    ensures r.Some? <==> content.Some? && |Issues(content.value.anchors, IdSet(content.value))| > 0
  {
    match content
    case None => None
    case Some(body) =>
      var issues := Issues(body.anchors, IdSet(body));
      if |issues| == 0 then None
      else
        var lines := seq(|issues|, k requires 0 <= k < |issues| => Message(show, issues[k]));
        Some("HTML validation errors in " + path + ":" + "\n" + Text.Join(lines, "\n"))
  }

  /** The log holds a header line and then exactly one line per dangling
      link, in document order, when neither the path nor a printed anchor
      holds a line break. */
  lemma OneLinePerIssue(body: Body, show: Anchor -> string, path: string)
    requires '\n' !in path
    requires forall a :: a in body.anchors ==> '\n' !in show(a)
    requires |Issues(body.anchors, IdSet(body))| > 0
    ensures var issues := Issues(body.anchors, IdSet(body));
            var lines := Text.Split(Check(Some(body), show, path).value, "\n");
            && |lines| == 1 + |issues|
            && lines[0] == "HTML validation errors in " + path + ":"
            && forall k :: 0 <= k < |issues| ==> lines[k + 1] == Message(show, issues[k])
  {
    var issues := Issues(body.anchors, IdSet(body));
    var lines := seq(|issues|, k requires 0 <= k < |issues| => Message(show, issues[k]));
    var head := "HTML validation errors in " + path + ":";
    NoBreakInMessages(show, issues);
    assert '\n' !in head by {
      assert head == "HTML validation errors in " + (path + ":");
      NoBreakAppend(path, ":");
      NoBreakAppend("HTML validation errors in ", path + ":");
    }
    var all := [head] + lines;
    assert Text.Join(all, "\n") == head + "\n" + Text.Join(lines, "\n") by {
      assert all[1..] == lines;
    }
    Text.SplitJoinChar(all, '\n');
  }

  lemma NoBreakAppend(x: string, y: string)
    requires '\n' !in x && '\n' !in y
    ensures '\n' !in x + y
  {
    assert forall i :: 0 <= i < |x + y| ==> (x + y)[i] == (if i < |x| then x[i] else y[i - |x|]);
  }

  lemma NoBreakInMessages(show: Anchor -> string, issues: seq<Anchor>)
    requires forall a :: a in issues ==> '\n' !in show(a)
    ensures forall k :: 0 <= k < |issues| ==> '\n' !in Message(show, issues[k])
  {
    forall k | 0 <= k < |issues|
      ensures '\n' !in Message(show, issues[k])
    {
      NoBreakAppend("'", show(issues[k]));
      NoBreakAppend("'" + show(issues[k]), "' backlink has no referent");
    }
  }
}
