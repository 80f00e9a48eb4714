/** The earlier stand-alone fediverse script (perma_fediverse.py): the
    uncaptioned toot-embed pattern, `getTootJson`, which reads
    `toots/<instance>/<user>/s<id>.json` or asks the instance's API and
    saves the answer, with the toot's media beside it, and
    `replaceBlanksInFile`. */
module TootScript {
  import opened Wrappers
  import opened Json
  import opened Social
  import opened Links
  import Paths
  import Mastodon
  import Twitter
  import Engine
  import ScriptIo

  // ------------------------------------------------- TOOTEMBED_NOTITLE_RE

  /** `(?<=!\[\]\()(https|http)://([^/]+)/@([^/]+)/(\d+).*?(?=\))` matched
      at `i`: the lazy `.*?` stops before the first ')' after the digits,
      and '.' does not cross a line break. The groups are the protocol,
      the instance, the user and the toot id; the ')' is not part of the
      match. */
  function TootAt(s: string, i: nat): (h: Option<ScriptIo.Hit>)
    ensures h.Some? ==> h.value.start == i < h.value.end < |s| && s[h.value.end] == ')'
    ensures h.Some? ==> AfterBlankImage(s, i) && |h.value.groups| == 4
    ensures h.Some? ==> |h.value.groups[3]| > 0 && forall k :: 0 <= k < |h.value.groups[3]| ==> Twitter.IsDigit(h.value.groups[3][k])
    ensures h.Some? ==> '/' !in h.value.groups[1] && '/' !in h.value.groups[2]
  {
    if !AfterBlankImage(s, i) then None
    else match SchemeEnd(s, i)
      case None => None
      case Some(a) =>
        var b := RunEnd(s, a, {'/'});
        if b == a || !LitAt(s, b, "/@") then None
        else
          var c := RunEnd(s, b + 2, {'/'});
          if c == b + 2 || !LitAt(s, c, "/") then None
          else
            var d := Twitter.DigitsEnd(s, c + 1);
            if d == c + 1 then None
            else
              var e := RunEnd(s, d, {')', '\n'});
              if e == |s| || s[e] != ')' then None
              else
                Mastodon.Free(s, a, b, '/');
                Mastodon.Free(s, b + 2, c, '/');
                Some(ScriptIo.Hit(i, e, [if LitAt(s, i, "https://") then "https" else "http", s[a..b], s[b + 2..c], s[c + 1..d]]))
  }

  /** The pattern's matches lie in the text. */
  lemma TootAtSpans()
    ensures ScriptIo.Spans(TootAt)
  {
  }

  /** Round trip: the uncaptioned embed `![](https://<instance>/@<user>/<id>)`
      of a toot link is matched at the link, up to the ')', with the link's
      instance, user and numeric id as its groups. */
  lemma TootAtRoundTrip(instance: string, user: string, id: string)
    requires Paths.Plain(instance) && Paths.Plain(user)
    requires |id| > 0 && forall k :: 0 <= k < |id| ==> Twitter.IsDigit(id[k])
    ensures var link := Mastodon.Link(instance, user, id);
            TootAt("![](" + link + ")", 4) == Some(ScriptIo.Hit(4, 4 + |link|, ["https", instance, user, id]))
  {
    TootPieces(instance, user, id);
    TootAtOn("![](" + Mastodon.Link(instance, user, id) + ")", instance, user, id);
  }

  /** The round trip on any text laid out as an uncaptioned toot embed. */
  lemma TootAtOn(s: string, instance: string, user: string, id: string)
    requires Paths.Plain(instance) && Paths.Plain(user)
    requires |id| > 0 && forall k :: 0 <= k < |id| ==> Twitter.IsDigit(id[k])
    requires var b := 12 + |instance|;
             var c := b + 2 + |user|;
             var d := c + 1 + |id|;
             && |s| == d + 1 && AfterBlankImage(s, 4) && LitAt(s, 4, "https://")
             && s[12..b] == instance && LitAt(s, b, "/@") && s[b] == '/'
             && s[b + 2..c] == user && LitAt(s, c, "/") && s[c] == '/'
             && s[c + 1..d] == id && s[d] == ')'
    ensures TootAt(s, 4) == Some(ScriptIo.Hit(4, |s| - 1, ["https", instance, user, id]))
  {
    var a := 12;
    var b := a + |instance|;
    var c := b + 2 + |user|;
    var d := c + 1 + |id|;
    RunStops(s, a, b, instance);
    RunStops(s, b + 2, c, user);
    forall k | c + 1 <= k < d
      ensures Twitter.IsDigit(s[k])
    {
      assert s[k] == s[c + 1..d][k - c - 1];
    }
    Twitter.DigitsEndUnique(s, c + 1, d);
    RunEndUnique(s, d, d, {')', '\n'});
    TootAtSteps(s, 4, a, b, c, d, d);
  }

  /** Where the pieces of an uncaptioned toot embed sit. */
  lemma TootPieces(instance: string, user: string, id: string)
    ensures var s := "![](" + Mastodon.Link(instance, user, id) + ")";
            var b := 12 + |instance|;
            var c := b + 2 + |user|;
            var d := c + 1 + |id|;
            && |s| == d + 1 && AfterBlankImage(s, 4) && LitAt(s, 4, "https://")
            && s[12..b] == instance && LitAt(s, b, "/@") && s[b] == '/'
            && s[b + 2..c] == user && LitAt(s, c, "/") && s[c] == '/'
            && s[c + 1..d] == id && s[d] == ')'
  {
    var s := "![](" + Mastodon.Link(instance, user, id) + ")";
    Mastodon.LinkPieces("![](", instance, user, id, ")");
    var b := 12 + |instance|;
    var c := b + 2 + |user|;
    var d := c + 1 + |id|;
    assert s[0..4] == "![](";
    assert s[b] == s[b..b + 2][0];
    assert s[c] == s[c..c + 1][0];
    assert s[d] == s[d..][0];
  }

  /** A plain name sitting between `i` and a '/' at `j` is one `[^/]+` run. */
  lemma RunStops(s: string, i: nat, j: nat, name: string)
    requires i <= j < |s| && s[i..j] == name && s[j] == '/' && Paths.Plain(name)
    ensures RunEnd(s, i, {'/'}) == j
  {
    forall k | i <= k < j
      ensures s[k] !in {'/'}
    {
      assert s[k] == s[i..j][k - i];
    }
    RunEndUnique(s, i, j, {'/'});
  }

  /** `TootAt` accepts once every step of its scan succeeds. */
  lemma TootAtSteps(s: string, i: nat, a: nat, b: nat, c: nat, d: nat, e: nat)
    requires AfterBlankImage(s, i) && LitAt(s, i, "https://") && a == i + 8 && a <= |s|
    requires RunEnd(s, a, {'/'}) == b && b != a && LitAt(s, b, "/@")
    requires RunEnd(s, b + 2, {'/'}) == c && c != b + 2 && LitAt(s, c, "/")
    requires Twitter.DigitsEnd(s, c + 1) == d && d != c + 1
    requires RunEnd(s, d, {')', '\n'}) == e && e < |s| && s[e] == ')'
    ensures TootAt(s, i) == Some(ScriptIo.Hit(i, e, ["https", s[a..b], s[b + 2..c], s[c + 1..d]]))
  {
  }

  // ------------------------------------------------------------ getTootJson

  /** The script's two module switches: `TOOT_DOWNLOAD_IMAGES` and
      `TOOT_DOWNLOAD_IMAGE_BACKLOG`. */
  datatype Flags = Flags(images: bool, backlog: bool)

  /** The switches as the script ships them: media is downloaded for new
      toots only. */
  const Shipped := Flags(true, false)

  /** `os.path.join("toots", instance, username)`. */
  function TootDir(instance: string, user: string): string {
    Paths.Join(["toots", instance, user])
  }

  /** `os.path.join(dest_dir, f"s{toot_id}.json")`. */
  function TootPath(instance: string, user: string, id: string): string {
    Paths.Join2(TootDir(instance, user), "s" + id + ".json")
  }

  /** Where a toot is cached, for plain names. */
  lemma TootPathShape(instance: string, user: string, id: string)
    requires Paths.Plain(instance) && Paths.Plain(user) && '/' !in id
    ensures TootPath(instance, user, id) == "toots/" + instance + "/" + user + "/s" + id + ".json"
  {
    Paths.JoinThree("toots", instance, user);
    assert TootDir(instance, user) == "toots" + "/" + instance + "/" + user;
    Paths.JoinUnder("toots" + "/" + instance + "/", user, "s" + id + ".json");
    assert "toots" + "/" + instance + "/" + user + "/" + ("s" + id + ".json")
        == "toots/" + instance + "/" + user + "/s" + id + ".json";
  }

  /** The instance's status endpoint the script asks. */
  function StatusUrl(instance: string, id: string): string {
    "https://" + instance + "/api/v1/statuses/" + id
  }

  /** The `try` around the media loop, from item `k`: each item's source is
      fetched to `s<id>-<name>` beside the toot unless that file exists; the
      first failure ends the loop, is printed, and leaves no file behind. */
  function SaveMedia(env: Env, w: World, dir: string, json: Json, items: seq<Json>, k: nat): (w2: World)
    requires k <= |items|
    ensures ScriptIo.MediaOnly(w, w2)
    ensures w2.bsky == w.bsky && w2.uris == w.uris
    decreases |items| - k
  {
    if k == |items| then w
    else match Mastodon.RealSourceUrl(items[k])
      case Err(_) => w
      case Ok(src) =>
        match Index(json, "id")
        case Err(_) => w
        case Ok(id) =>
          var dest := Paths.Join2(dir, "s" + Display(id) + "-" + Paths.Tail(src));
          if dest in w.disk then SaveMedia(env, w, dir, json, items, k + 1)
          else
            var got := Engine.Download(env, w, src, dest);
            if got.1.Err? then w
            else
              var rest := SaveMedia(env, got.0, dir, json, items, k + 1);
              ScriptIo.DownloadAdds(env, w, src, dest);
              ScriptIo.MediaOnlyTrans(w, got.0, rest);
              rest
  }

  /** The media step of either branch, once the switches allow it:
      `json.get("media_attachments")` raises on a non-object; a falsy list
      downloads nothing; items that cannot be iterated end the loop. */
  function MediaStep(env: Env, w: World, dir: string, json: Json): (res: (World, Outcome<()>))
    ensures res.1.Err? <==> !json.JObj?
    ensures res.1.Err? ==> res == (w, Err(AttributeError))
    ensures ScriptIo.MediaOnly(w, res.0) && res.0.bsky == w.bsky && res.0.uris == w.uris
  {
    match GetOr(json, "media_attachments", JNull)
    case Err(e) => (w, Err(e))
    case Ok(m) =>
      if !Truthy(m) then (w, Ok(()))
      else match Iterate(m)
        case Err(_) => (w, Ok(()))
        case Ok(items) => (SaveMedia(env, w, dir, json, items, 0), Ok(()))
  }

  /** `getTootJson(instance, username, toot_id, get_media)`, with `fetch` for
      `requests.get(url).json()`. A cached toot is returned as stored, after
      fetching its backlog media when both switches are on; a toot that is
      not cached is fetched, saved, and its media fetched when `get_media`
      and images are on. The miss branch's handler names an undefined
      variable, so every failure there surfaces as `NameError`. */
  function GetToot(env: Env, fetch: string -> Outcome<Json>, flags: Flags, w: World,
                   instance: string, user: string, id: string, getMedia: bool): (res: (World, Outcome<Json>))
    ensures var p := TootPath(instance, user, id);
            ScriptIo.Load(w.disk, p).Ok? && !(flags.images && flags.backlog) ==> res == (w, ScriptIo.Load(w.disk, p))
    ensures var p := TootPath(instance, user, id);
            ScriptIo.Load(w.disk, p).Ok? && ScriptIo.Load(w.disk, p).value.JObj? ==> res.1 == ScriptIo.Load(w.disk, p)
    ensures var p := TootPath(instance, user, id);
            ScriptIo.Load(w.disk, p).Ok? && !ScriptIo.Load(w.disk, p).value.JObj? && flags.images && flags.backlog
            ==> res == (w, Err(AttributeError))
    ensures var p := TootPath(instance, user, id);
            p in w.disk && !w.disk[p].Doc? ==> res == (w, Err(DecodeError(p)))
    ensures var p := TootPath(instance, user, id);
            p !in w.disk && fetch(StatusUrl(instance, id)).Err? ==> res == (w, Err(NameError))
    ensures var p := TootPath(instance, user, id);
            var sj := fetch(StatusUrl(instance, id));
            p !in w.disk && sj.Ok? && (sj.value.JObj? || !(flags.images && getMedia))
            ==> res.1 == sj && p in res.0.disk && res.0.disk[p] == Doc(sj.value)
                && |res.0.trace| > |w.trace| && res.0.trace[|w.trace|] == Save(p)
    ensures res.1.Err? ==> res.0.disk.Keys <= w.disk.Keys + {TootPath(instance, user, id)}
    ensures res.0.bsky == w.bsky && res.0.uris == w.uris
  {
    var dir := TootDir(instance, user);
    var p := TootPath(instance, user, id);
    match ScriptIo.Load(w.disk, p)
    case Ok(j) =>
      if !(flags.images && flags.backlog) then (w, Ok(j))
      else
        var m := MediaStep(env, w, dir, j);
        if m.1.Err? then (m.0, Err(m.1.error)) else (m.0, Ok(j))
    case Err(e) =>
      if !e.FileNotFound? then (w, Err(e))
      else match fetch(StatusUrl(instance, id))
        case Err(_) => (w, Err(NameError))
        case Ok(sj) =>
          var w1 := w.Put(p, Doc(sj), Save(p));
          if !(flags.images && getMedia) then (w1, Ok(sj))
          else
            var m := MediaStep(env, w1, dir, sj);
            assert m.0.trace[..|w1.trace|] == w1.trace;
            assert m.0.trace[|w.trace|] == w1.trace[|w.trace|];
            if m.1.Err? then (m.0, Err(NameError)) else (m.0, Ok(sj))
  }

  /** A cached toot is returned without consulting the instance: any two
      fetchers give the same answer. */
  lemma CachedIgnoresFetch(env: Env, f1: string -> Outcome<Json>, f2: string -> Outcome<Json>, flags: Flags, w: World,
                           instance: string, user: string, id: string, getMedia: bool)
    requires TootPath(instance, user, id) in w.disk && w.disk[TootPath(instance, user, id)].Doc?
    ensures GetToot(env, f1, flags, w, instance, user, id, getMedia) == GetToot(env, f2, flags, w, instance, user, id, getMedia)
  {
  }

  /** Once a toot object was fetched, the next lookup is a cache hit with
      the same toot; with the shipped switches it changes nothing. */
  lemma {:induction false} SecondLookupHits(env: Env, fetch: string -> Outcome<Json>, w: World,
                                            instance: string, user: string, id: string, getMedia: bool)
    requires TootPath(instance, user, id) !in w.disk
    requires fetch(StatusUrl(instance, id)).Ok? && fetch(StatusUrl(instance, id)).value.JObj?
    ensures var first := GetToot(env, fetch, Shipped, w, instance, user, id, getMedia);
            GetToot(env, fetch, Shipped, first.0, instance, user, id, getMedia) == first
  {
    var first := GetToot(env, fetch, Shipped, w, instance, user, id, getMedia);
    var p := TootPath(instance, user, id);
    assert ScriptIo.Load(first.0.disk, p) == first.1;
  }

  // ------------------------------------------------------ replaceBlanksInFile

  /** One match of the loop: look the toot up (with media) and render
      `TOOT_EMBED_TEMPLATE` from it through `render`. */
  function EmbedToot(env: Env, fetch: string -> Outcome<Json>, flags: Flags, render: Json -> Outcome<string>,
                     v: World, h: ScriptIo.Hit): (res: (World, Outcome<string>))
    ensures |h.groups| != 4 ==> res == (v, Err(ValueError))
    ensures |h.groups| == 4 ==>
              var g := GetToot(env, fetch, flags, v, h.groups[1], h.groups[2], h.groups[3], true);
              res.0 == g.0 && (g.1.Err? ==> res.1.Err?) && (g.1.Ok? ==> res.1 == render(g.1.value))
  {
    if |h.groups| != 4 then (v, Err(ValueError))
    else
      var g := GetToot(env, fetch, flags, v, h.groups[1], h.groups[2], h.groups[3], true);
      match g.1
      case Err(e) => (g.0, Err(e))
      case Ok(j) => (g.0, render(j))
  }

  /** `replaceBlanksInFile(filepath, replace_only_uncaptioned)`: the pattern
      is the uncaptioned one whatever the flag; the flag only chooses
      whether the replaced text starts at "![" or at "](". */
  function ReplaceBlanks(env: Env, fetch: string -> Outcome<Json>, flags: Flags, render: Json -> Outcome<string>,
                         w: World, file: string, uncaptioned: bool): (res: (World, Outcome<bool>))
    ensures res.1.Err? <==> file !in w.disk || !w.disk[file].Text?
    ensures res.1 == Ok(true) ==> |res.0.trace| > 0 && res.0.trace[|res.0.trace| - 1] == Rewrite(file)
  {
    TootAtSpans();
    ScriptIo.ReplaceBlanks(w, file, TootAt, if uncaptioned then "![" else "",
                           (v, h) => EmbedToot(env, fetch, flags, render, v, h))
  }
}
