/** The earlier stand-alone Bluesky script (perma_bluesky.py): the skeet-link
    patterns, `getSkeetJson`, which reads `skeets/<user>/s<id>.json` or asks
    the Bluesky API for the post's thread and saves the post with its
    images beside it, and `replaceBlanksInFile`. */
module SkeetScript {
  import opened Wrappers
  import opened Json
  import opened Social
  import opened Links
  import Text
  import Paths
  import Bluesky
  import Mastodon
  import Engine
  import ScriptIo

  // ---------------------------------------------------------- SKEETLINK_RE

  /** The last ')' at a position of `(c, e]`, searching down from `e`. */
  function LastParen(s: string, c: nat, e: nat): (r: Option<nat>)
    requires e < |s|
    ensures r.Some? ==> c < r.value <= e && s[r.value] == ')'
    ensures r.Some? ==> forall k :: r.value < k <= e ==> s[k] != ')'
    ensures r.None? ==> forall k :: c < k <= e ==> s[k] != ')'
    decreases e
  {
    if e <= c then None
    else if s[e] == ')' then Some(e)
    else LastParen(s, c, e - 1)
  }

  /** The rest of the pattern with the host at `h`: the user is one `[^/]+`
      run; the greedy `(.+)` takes the post to the end of the line, and,
      when the `(?=\))` look-ahead follows, gives characters back until it
      stands before the last ')' of that line. */
  function SkeetFrom(s: string, i: nat, h: nat, www: string, notitle: bool): (m: Option<ScriptIo.Hit>)
    requires i < h
    ensures m.Some? ==> m.value.start == i < m.value.end <= |s| && |m.value.groups| == 4
    ensures m.Some? && notitle ==> m.value.end < |s| && s[m.value.end] == ')'
    ensures m.Some? ==> '\n' !in m.value.groups[3] && |m.value.groups[3]| > 0
  {
    if !Bluesky.HostAt(s, h) then None
    else
      var u0 := h + 17;
      var u1 := RunEnd(s, u0, {'/'});
      if u1 == u0 || !LitAt(s, u1, "/post/") then None
      else
        var c := u1 + 6;
        var l := RunEnd(s, c, {'\n'});
        if l == c then None
        else
          var e := if notitle then LastParen(s, c, l - 1) else Some(l);
          if e.None? then None
          else
            Mastodon.Free(s, c, e.value, '\n');
            Some(ScriptIo.Hit(i, e.value, [if LitAt(s, i, "https://") then "https" else "http", www, s[u0..u1], s[c..e.value]]))
  }

  /** `SKEETEMBED_NOTITLE_RE` (`notitle`) or `SKEETLINK_RE` matched at `i`.
      The groups are the protocol, the optional `www.` (empty when it is
      skipped), the user and the post id; `(www.){0,1}` is tried first. */
  function SkeetAt(s: string, i: nat, notitle: bool): (m: Option<ScriptIo.Hit>)
    ensures m.Some? ==> m.value.start == i < m.value.end <= |s| && |m.value.groups| == 4
    ensures m.Some? && notitle ==> AfterBlankImage(s, i) && m.value.end < |s| && s[m.value.end] == ')'
    ensures m.Some? ==> '\n' !in m.value.groups[3] && |m.value.groups[3]| > 0
  {
    if i > |s| || (notitle && !AfterBlankImage(s, i)) then None
    else match SchemeEnd(s, i)
      case None => None
      case Some(a) =>
        if WwwAt(s, a) && SkeetFrom(s, i, a + 4, s[a..a + 4], notitle).Some? then SkeetFrom(s, i, a + 4, s[a..a + 4], notitle)
        else SkeetFrom(s, i, a, "", notitle)
  }

  lemma SkeetAtSpans(notitle: bool)
    ensures ScriptIo.Spans((s: string, i: nat) => SkeetAt(s, i, notitle))
  {
  }

  /** The embed opener and a skeet link, followed by `close`. */
  function Written(user: string, post: string, close: string): string {
    "![](" + Bluesky.Link(false, user, post) + close
  }

  /** The layout of `Written`: where the host, the user and the post sit. */
  predicate Laid(s: string, user: string, post: string) {
    var u1 := 29 + |user|;
    var l := u1 + 6 + |post|;
    && |s| >= l && AfterBlankImage(s, 4) && LitAt(s, 4, "https://") && !WwwAt(s, 12)
    && Bluesky.HostAt(s, 12) && s[29..u1] == user && LitAt(s, u1, "/post/") && s[u1] == '/'
    && s[u1 + 6..l] == post
  }

  /** Where the pieces of a written skeet link sit. */
  lemma SkeetPieces(user: string, post: string, close: string)
    ensures var s := Written(user, post, close);
            Laid(s, user, post) && |s| == 35 + |user| + |post| + |close| && s[35 + |user| + |post|..] == close
  {
    var s := Written(user, post, close);
    var r := user + "/post/" + post + close;
    assert "bsky.app/profile/" == "bsky" + ("." + "app/profile/");
    assert s == "![](" + ("https://" + ("bsky" + ("." + ("app/profile/" + r))));
    HostPrefix(r);
    TailPieces(r, user, post, close);
    var u1 := 29 + |user|;
    assert s[29..] == r;
    assert s[29..u1] == r[..|user|];
    assert s[u1..u1 + 6] == r[|user|..|user| + 6];
    assert s[u1 + 6..u1 + 6 + |post|] == r[|user| + 6..|user| + 6 + |post|];
    assert s[u1 + 6 + |post|..] == r[|user| + 6 + |post|..];
  }

  /** The fixed head of a written skeet link. */
  lemma HostPrefix(r: string)
    ensures var s := "![](" + ("https://" + ("bsky" + ("." + ("app/profile/" + r))));
            AfterBlankImage(s, 4) && LitAt(s, 4, "https://") && !WwwAt(s, 12) && Bluesky.HostAt(s, 12)
            && |s| == 29 + |r| && s[29..] == r
  {
    var e := "app/profile/" + r;
    var d := "." + e;
    var c := "bsky" + d;
    var b := "https://" + c;
    var s := "![](" + b;
    assert s[0..4] == "![](" && s[4..] == b;
    assert s[4..12] == b[..8] == "https://";
    assert s[12..] == b[8..] == c;
    assert s[12..16] == c[..4] == "bsky";
    assert s[12] == c[0] == 'b';
    assert s[16..] == c[4..] == d;
    assert s[16] == d[0] == '.';
    assert s[17..] == d[1..] == e;
    assert s[17..29] == e[..12] == "app/profile/";
    assert s[29..] == e[12..] == r;
  }

  /** The pieces after the head. */
  lemma TailPieces(r: string, user: string, post: string, close: string)
    requires r == user + "/post/" + post + close
    ensures r[..|user|] == user && r[|user|..|user| + 6] == "/post/" && r[|user|] == '/'
    ensures r[|user| + 6..|user| + 6 + |post|] == post && r[|user| + 6 + |post|..] == close
  {
    assert r[|user|..|user| + 6][0] == r[|user|];
  }

  /** On any text laid out as a skeet link whose line ends at `l`, the scan
      reaches the post's line. */
  lemma SkeetLine(s: string, user: string, post: string, l: nat)
    requires Paths.Plain(user) && Laid(s, user, post) && |post| > 0
    requires 35 + |user| + |post| <= l <= |s| && (l == |s| || s[l] == '\n')
    requires forall k :: 35 + |user| <= k < l ==> s[k] != '\n'
    ensures var c := 35 + |user|;
            RunEnd(s, 29, {'/'}) == c - 6 && RunEnd(s, c, {'\n'}) == l && SchemeEnd(s, 4) == Some(12)
  {
    var u1 := 29 + |user|;
    forall k | 29 <= k < u1
      ensures s[k] !in {'/'}
    {
      assert s[k] == s[29..u1][k - 29];
    }
    RunEndUnique(s, 29, u1, {'/'});
    RunEndUnique(s, u1 + 6, l, {'\n'});
  }

  /** The uncaptioned embed `![](https://bsky.app/profile/<user>/post/<post>)`
      on a line of its own is matched up to its closing ')', whatever the
      post id holds, even ')' characters. */
  lemma SkeetAtRoundTrip(user: string, post: string)
    requires Paths.Plain(user) && |post| > 0 && '\n' !in post
    ensures var link := Bluesky.Link(false, user, post);
            SkeetAt("![](" + link + ")", 4, true) == Some(ScriptIo.Hit(4, 4 + |link|, ["https", "", user, post]))
  {
    SkeetPieces(user, post, ")");
    SkeetAtOn(Written(user, post, ")"), user, post);
  }

  /** The round trip on any text laid out as an uncaptioned skeet embed. */
  lemma SkeetAtOn(s: string, user: string, post: string)
    requires Paths.Plain(user) && |post| > 0 && '\n' !in post
    requires Laid(s, user, post) && |s| == 36 + |user| + |post| && s[35 + |user| + |post|..] == ")"
    ensures SkeetAt(s, 4, true) == Some(ScriptIo.Hit(4, |s| - 1, ["https", "", user, post]))
  {
    var c := 35 + |user|;
    var l := |s| - 1;
    assert s[l] == s[l..][0] == ')';
    forall k | c <= k < |s|
      ensures s[k] != '\n'
    {
      if k < l {
        assert s[k] == s[c..l][k - c];
      }
    }
    SkeetLine(s, user, post, |s|);
    assert LastParen(s, c, |s| - 1) == Some(l);
  }

  /** Two uncaptioned embeds on one line make one match: the greedy post id
      runs from the first link to the second embed's ')', swallowing the
      first ')' and everything between. */
  lemma GreedyJoinsLine(user: string, post: string, between: string, link2: string)
    requires Paths.Plain(user) && |post| > 0 && '\n' !in post && '\n' !in between && '\n' !in link2
    ensures var joined := post + ")" + between + "![](" + link2;
            var s := "![](" + Bluesky.Link(false, user, post) + ")" + between + "![](" + link2 + ")";
            SkeetAt(s, 4, true) == Some(ScriptIo.Hit(4, |s| - 1, ["https", "", user, joined]))
  {
    var more := ")" + between + "![](" + link2;
    var joined := post + more;
    assert joined == post + ")" + between + "![](" + link2;
    assert '\n' !in more by {
      NoBreak(")", between);
      NoBreak(")" + between, "![](");
      NoBreak(")" + between + "![](", link2);
    }
    NoBreak(post, more);
    SkeetAtRoundTrip(user, joined);
    LinkAppend(user, post, more);
    Regroup(Bluesky.Link(false, user, post), between, link2);
  }

  lemma Regroup(link: string, between: string, link2: string)
    ensures "![](" + link + ")" + between + "![](" + link2 + ")" == "![](" + (link + (")" + between + "![](" + link2)) + ")"
  {
  }

  lemma NoBreak(post: string, more: string)
    requires '\n' !in post && '\n' !in more
    ensures '\n' !in post + more
  {
  }

  /** Text after a link's post id extends the id. */
  lemma LinkAppend(user: string, post: string, more: string)
    ensures Bluesky.Link(false, user, post + more) == Bluesky.Link(false, user, post) + more
  {
  }

  /** `SKEETLINK_RE` without the look-ahead takes the rest of the line as
      the post id, the embed's ')' included. */
  lemma CaptionedTakesLine(user: string, post: string, tail: string)
    requires Paths.Plain(user) && |post| > 0 && '\n' !in post && '\n' !in tail
    ensures var s := "![](" + Bluesky.Link(false, user, post) + ")" + tail;
            SkeetAt(s, 4, false) == Some(ScriptIo.Hit(4, |s|, ["https", "", user, post + ")" + tail]))
  {
    var rest := post + ")" + tail;
    var s := Written(user, rest, "");
    SkeetPieces(user, rest, "");
    assert '\n' !in rest;
    var c := 35 + |user|;
    forall k | c <= k < |s|
      ensures s[k] != '\n'
    {
      assert s[k] == s[c..|s|][k - c];
    }
    SkeetLine(s, user, rest, |s|);
    assert s == "![](" + Bluesky.Link(false, user, post) + ")" + tail;
  }

  // ---------------------------------------------------------- getSkeetJson

  /** The script's two module switches: `SKEET_DOWNLOAD_IMAGES` and
      `SKEET_DOWNLOAD_IMAGE_BACKLOG`. */
  datatype Flags = Flags(images: bool, backlog: bool)

  /** The switches as the script ships them: both on. */
  const Shipped := Flags(true, true)

  /** `os.path.join("skeets", username)`. */
  function SkeetDir(user: string): string {
    Paths.Join(["skeets", user])
  }

  /** `os.path.join(dest_dir, f"s{tweet_id}.json")`. */
  function SkeetPath(user: string, id: string): string {
    Paths.Join2(SkeetDir(user), "s" + id + ".json")
  }

  lemma SkeetPathShape(user: string, id: string)
    requires Paths.Plain(user)
    ensures SkeetPath(user, id) == "skeets/" + user + "/s" + id + ".json"
  {
    var dir := SkeetDir(user);
    assert Paths.Join(["skeets", user]) == Paths.Join2("skeets", user);
    assert dir == "skeets/" + user;
    assert dir[|dir| - 1] == user[|user| - 1];
    assert "s" + id + ".json" != [] && ("s" + id + ".json")[0] == 's';
  }

  /** How the `try` around the cached file ends: it returns a record, it
      raises past its handler, or the handler catches a `FileNotFoundError`,
      `KeyError` or `JSONDecodeError` and the function goes on with
      `json_obj` as it stands (JSON null for None). */
  datatype Cached = Served(json: Json) | Raised(error: Error) | Missed(held: Json)

  /** The retweet pass-through: a record whose text starts with "RT @" and
      that holds a truthy `retweeted_status` is replaced by that status,
      stamped with the retweeting user (`{}` when there is none). A record
      that is not an object, a text that is not a string, and a status that
      is not an object raise. */
  function Unwrap(j: Json): (r: Outcome<Json>)
    ensures r.Ok? ==> r.value.JObj?
    ensures !j.JObj? ==> r == Err(AttributeError)
  {
    match j
    case JObj(m) =>
      var full := if "full_text" in m then m["full_text"] else if "text" in m then m["text"] else JStr("");
      if !full.JStr? then Err(AttributeError)
      else if !Text.StartsWith(full.s, "RT @") then Ok(j)
      else
        var rt := if "retweeted_status" in m then m["retweeted_status"] else JNull;
        if !Truthy(rt) then Ok(j)
        else SetField(rt, "retweeted_by", if "user" in m then m["user"] else JObj(map[]))
    case _ => Err(AttributeError)
  }

  /** The `try` around the cached file. With both switches on, a record
      whose `entities.media` is truthy enters the media loop, whose first
      step calls `get_real_src_url`, a name this script never defines; the
      handler then prints `json_obj['id']`, which re-raises `KeyError` (caught
      by the outer handler) when there is no id, and otherwise touches
      `media_dest_path`, a local never assigned: `UnboundLocalError`. */
  function CacheStep(flags: Flags, disk: map<string, File>, p: string): (c: Cached)
    ensures p !in disk || !disk[p].Doc? ==> c == Missed(JNull)
    ensures c.Served? ==> p in disk && disk[p].Doc? && Unwrap(disk[p].json) == Ok(c.json)
    ensures c.Missed? && c.held != JNull ==> flags.images && flags.backlog && c.held.JObj? && "id" !in c.held.fields
  {
    match ScriptIo.Load(disk, p)
    case Err(_) => Missed(JNull)
    case Ok(j) =>
      match Unwrap(j)
      case Err(e) => Raised(e)
      case Ok(j2) =>
        if !(flags.images && flags.backlog) then Served(j2)
        else
          var ents := GetOr(j2, "entities", JObj(map[])).value;
          match Get(ents, "media")
          case Err(e) => Raised(e)
          case Ok(media) =>
            if !Truthy(media) then Served(j2)
            else if "id" in j2.fields then Raised(UnboundLocalError)
            else Missed(j2)
  }

  /** `getSkeetJsonApi(username, tweet_id)`, where `online` says whether
      `getApi()` can log in: resolve the handle's DID, fetch the thread of
      `at://<did>/app.bsky.feed.post/<id>`, and stamp the thread's post with
      the id it was asked for. */
  function Api(env: Env, online: bool, user: string, id: string): (r: Outcome<Json>)
    ensures r.Ok? ==> r.value.JObj? && "id" in r.value.fields && r.value.fields["id"] == JStr(id)
    ensures r.Ok? ==> online && env.did(Some(user)).Ok?
                      && env.thread(JStr(Bluesky.AtUri(env.did(Some(user)).value, id))).Ok?
    ensures !online ==> r.Err?
  {
    if !online then Err(FileNotFound(".netrc"))
    else
      var did :- env.did(Some(user));
      var resp :- env.thread(JStr(Bluesky.AtUri(did, id)));
      var post :- Bluesky.ThreadPost(resp);
      SetField(post, "id", JStr(id))
  }

  /** The source URL and destination path of one image: its `fullsize`
      URL, whose last path component names the file `s<id>-<name>`. */
  function ImageDest(dir: string, json: Json, image: Json): (r: Outcome<(string, string)>)
    ensures r.Ok? ==> Index(json, "id").Ok? && Index(image, "fullsize") == Ok(JStr(r.value.0))
  {
    var src :- Index(image, "fullsize");
    var path :- PathArg(src);
    var id :- Index(json, "id");
    Ok((path, Paths.Join2(dir, "s" + Display(id) + "-" + Paths.Tail(path))))
  }

  /** The handler of the image loop: it prints `json_obj['id']`. */
  function Report(json: Json): (r: Outcome<()>)
    ensures r.Ok? <==> Index(json, "id").Ok?
  {
    match Index(json, "id")
    case Ok(_) => Ok(())
    case Err(e) => Err(e)
  }

  /** The `try` around the image loop, from item `k`: each image's
      `fullsize` URL is fetched to `s<id>-<name>` beside the post unless that
      file exists. The first failure ends the loop; the handler prints
      `json_obj['id']`, which raises when the record has no id. */
  function SaveImages(env: Env, w: World, dir: string, json: Json, items: seq<Json>, k: nat): (res: (World, Outcome<()>))
    requires k <= |items|
    ensures ScriptIo.MediaOnly(w, res.0) && res.0.bsky == w.bsky && res.0.uris == w.uris
    ensures res.1.Err? ==> Index(json, "id").Err? && res.1 == Report(json)
    ensures Index(json, "id").Ok? ==> res.1.Ok?
    decreases |items| - k
  {
    if k == |items| then (w, Ok(()))
    else match ImageDest(dir, json, items[k])
      case Err(_) => (w, Report(json))
      case Ok((src, dest)) =>
        if dest in w.disk then SaveImages(env, w, dir, json, items, k + 1)
        else
          var got := Engine.Download(env, w, src, dest);
          if got.1.Err? then (w, Report(json))
          else
            var rest := SaveImages(env, got.0, dir, json, items, k + 1);
            ScriptIo.DownloadAdds(env, w, src, dest);
            ScriptIo.MediaOnlyTrans(w, got.0, rest.0);
            rest
  }

  /** `getSkeetJson(username, tweet_id, get_media)`: the cached record when
      the cache step returns one; otherwise the API's post when nothing is
      held; then a truthy record is saved, its images are fetched when
      `get_media` is set, and it is returned. With nothing to save, it
      raises "Can't retrieve skeet". */
  function GetSkeet(env: Env, online: bool, flags: Flags, w: World, user: string, id: string, getMedia: bool): (res: (World, Outcome<Json>))
    ensures var c := CacheStep(flags, w.disk, SkeetPath(user, id));
            c.Served? ==> res == (w, Ok(c.json))
    ensures var c := CacheStep(flags, w.disk, SkeetPath(user, id));
            c.Raised? ==> res == (w, Err(c.error))
    ensures var c := CacheStep(flags, w.disk, SkeetPath(user, id));
            c == Missed(JNull) && Api(env, online, user, id).Err? ==> res == (w, Err(Failure("Can't retrieve skeet")))
    ensures var c := CacheStep(flags, w.disk, SkeetPath(user, id));
            var a := Api(env, online, user, id);
            c == Missed(JNull) && a.Ok? ==>
              && (res.1 == a || (flags.images && getMedia && res.1 == Err(AttributeError)))
              && |res.0.trace| > |w.trace| && res.0.trace[|w.trace|] == Save(SkeetPath(user, id))
              && SkeetPath(user, id) in res.0.disk && res.0.disk[SkeetPath(user, id)] == Doc(a.value)
    ensures res.0.bsky == w.bsky && res.0.uris == w.uris
  {
    var dir := SkeetDir(user);
    var p := SkeetPath(user, id);
    match CacheStep(flags, w.disk, p)
    case Served(j) => (w, Ok(j))
    case Raised(e) => (w, Err(e))
    case Missed(held) =>
      var json := if Truthy(held) then held
                  else match Api(env, online, user, id)
                    case Ok(j) => j
                    case Err(_) => held;
      if !Truthy(json) then (w, Err(Failure("Can't retrieve skeet")))
      else
        var w1 := w.Put(p, Doc(json), Save(p));
        if !(flags.images && getMedia) then (w1, Ok(json))
        else match GetOr(json, "embed", JObj(map[]))
          case Err(e) => (w1, Err(e))
          case Ok(embed) =>
            match Get(embed, "images")
            case Err(e) => (w1, Err(e))
            case Ok(imgs) =>
              if !Truthy(imgs) then (w1, Ok(json))
              else
                var got := match Iterate(imgs)
                  case Err(_) => (w1, Report(json))
                  case Ok(items) => SaveImages(env, w1, dir, json, items, 0);
                assert got.0.trace[..|w1.trace|] == w1.trace;
                assert got.0.trace[|w.trace|] == w1.trace[|w.trace|];
                if got.1.Err? then (got.0, Err(got.1.error)) else (got.0, Ok(json))
  }

  /** A cached retweet is served as the retweeted status, stamped with the
      retweeting user, without rewriting the file or asking the API. */
  lemma CachedRetweet(env: Env, online: bool, w: World, user: string, id: string, getMedia: bool,
                      text: string, rt: map<string, Json>, who: Json)
    requires SkeetPath(user, id) in w.disk
    requires w.disk[SkeetPath(user, id)] == Doc(JObj(map["full_text" := JStr("RT @" + text), "retweeted_status" := JObj(rt), "user" := who]))
    requires |rt| > 0 && "entities" !in rt
    ensures GetSkeet(env, online, Shipped, w, user, id, getMedia) == (w, Ok(JObj(rt["retweeted_by" := who])))
  {
    var j := JObj(map["full_text" := JStr("RT @" + text), "retweeted_status" := JObj(rt), "user" := who]);
    assert Text.StartsWith("RT @" + text, "RT @");
    assert Unwrap(j) == Ok(JObj(rt["retweeted_by" := who]));
  }

  /** With the backlog switch on, a cached skeet with media and an id makes
      the lookup raise `UnboundLocalError`: the media loop calls a function
      the script does not define, and its handler touches a path that was
      never assigned. */
  lemma CachedMediaRaises(env: Env, online: bool, w: World, user: string, id: string, getMedia: bool,
                          media: seq<Json>, sid: Json)
    requires SkeetPath(user, id) in w.disk
    requires w.disk[SkeetPath(user, id)] == Doc(JObj(map["entities" := JObj(map["media" := JArr(media)]), "id" := sid]))
    requires |media| > 0
    ensures GetSkeet(env, online, Shipped, w, user, id, getMedia) == (w, Err(UnboundLocalError))
  {
    var j := JObj(map["entities" := JObj(map["media" := JArr(media)]), "id" := sid]);
    assert Unwrap(j) == Ok(j);
  }

  /** Without an id, the handler's `KeyError` reaches the outer handler, and
      the record read is kept: it is written back to its file and returned,
      whether or not the API is reachable. */
  lemma CachedMediaNoIdResaved(env: Env, online: bool, w: World, user: string, id: string, getMedia: bool,
                               media: seq<Json>)
    requires SkeetPath(user, id) in w.disk
    requires w.disk[SkeetPath(user, id)] == Doc(JObj(map["entities" := JObj(map["media" := JArr(media)])]))
    requires |media| > 0
    ensures var j := JObj(map["entities" := JObj(map["media" := JArr(media)])]);
            GetSkeet(env, online, Shipped, w, user, id, getMedia)
              == (w.Put(SkeetPath(user, id), Doc(j), Save(SkeetPath(user, id))), Ok(j))
  {
    var j := JObj(map["entities" := JObj(map["media" := JArr(media)])]);
    assert Unwrap(j) == Ok(j);
    assert CacheStep(Shipped, w.disk, SkeetPath(user, id)) == Missed(j);
    assert Truthy(j);
  }

  // ------------------------------------------------------ replaceBlanksInFile

  /** One match of the loop: look the post up (with media) and render
      `SKEET_EMBED_TEMPLATE` from it and the matched id through `render`. */
  function EmbedSkeet(env: Env, online: bool, flags: Flags, render: (string, Json) -> Outcome<string>,
                      v: World, h: ScriptIo.Hit): (res: (World, Outcome<string>))
    ensures |h.groups| != 4 ==> res == (v, Err(ValueError))
    ensures |h.groups| == 4 ==>
              var g := GetSkeet(env, online, flags, v, h.groups[2], h.groups[3], true);
              res.0 == g.0 && (g.1.Err? ==> res.1.Err?) && (g.1.Ok? ==> res.1 == render(h.groups[3], g.1.value))
  {
    if |h.groups| != 4 then (v, Err(ValueError))
    else
      var g := GetSkeet(env, online, flags, v, h.groups[2], h.groups[3], true);
      match g.1
      case Err(e) => (g.0, Err(e))
      case Ok(j) => (g.0, render(h.groups[3], j))
  }

  /** `replaceBlanksInFile(filepath, replace_only_uncaptioned)`: the flag
      chooses the uncaptioned pattern and the "![" prefix, or the bare link
      pattern and no prefix. */
  function ReplaceBlanks(env: Env, online: bool, flags: Flags, render: (string, Json) -> Outcome<string>,
                         w: World, file: string, uncaptioned: bool): (res: (World, Outcome<bool>))
    ensures res.1.Err? <==> file !in w.disk || !w.disk[file].Text?
    ensures res.1 == Ok(true) ==> |res.0.trace| > 0 && res.0.trace[|res.0.trace| - 1] == Rewrite(file)
  {
    SkeetAtSpans(uncaptioned);
    ScriptIo.ReplaceBlanks(w, file, (s: string, i: nat) => SkeetAt(s, i, uncaptioned), if uncaptioned then "![" else "",
                           (v, h) => EmbedSkeet(env, online, flags, render, v, h))
  }
}
