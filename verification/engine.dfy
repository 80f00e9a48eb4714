/** The archiving engine of `PermaSocial` (perma_social/common.py, and the
    earlier perma_social.py): `getPostJson` tries the adapter's JSON getters
    in order, saves a freshly fetched post, its media, and then every related
    post it has not already traversed on the current call chain. */
module Engine {
  import opened Wrappers
  import opened Json
  import opened Social
  import Text
  import Store
  import Mastodon
  import Twitter
  import Bluesky

  /** The guard at the top of the current `getPostJson`. `AsWritten` is
      `":" in post_reference.user_id`, which raises `TypeError` for a
      reference with no user; `Tolerant` lets such a reference through to
      the getters, which is what the Mastodon reply parent needs. */
  datatype Guard = AsWritten | Tolerant

  /** One adapter of one plugin version, the outside world it talks to, and
      the guard in force. */
  datatype Config = Config(a: Adapter, env: Env, guard: Guard)

  // ------------------------------------------------------------------ hooks

  /** `seasonPostReference`: only Mastodon fills in the user. */
  function Season(a: Adapter, json: Json, r: Ref): (r2: Outcome<Ref>)
    ensures !a.Fedi() ==> r2 == Ok(r)
    ensures r2.Ok? ==> r2.value.cls == r.cls && r2.value.instance == r.instance && r2.value.postId == r.postId
    ensures r.userId.Some? && r.userId.value != "" ==> r2 == Ok(r)
  {
    if a.Fedi() then Mastodon.Season(json, r) else Ok(r)
  }

  /** `getPostFilePath` of the adapter. */
  function PostPath(a: Adapter, json: Json, r: Ref, media: string): (p: Outcome<string>)
    ensures !a.Fedi() ==> p == Store.BasePath(a, r, media)
  {
    if a.Fedi() then Mastodon.FilePath(json, r, media, a.Legacy()) else Store.BasePath(a, r, media)
  }

  /** `getPostMedia` of the adapter. */
  function MediaOf(a: Adapter, json: Json): Yield<(string, Src)> {
    if a == Twitter then Twitter.Media(json)
    else if a.Sky() then Bluesky.Media(json, a.Legacy())
    else Mastodon.Media(json, a.Legacy())
  }

  /** `getRelatedPosts` of the adapter; the Bluesky one fills the URI cache
      before it yields anything. */
  function RelatedOf(cfg: Config, w: World, json: Json, r: Ref): (res: (World, Yield<Ref>))
    ensures res.0.disk == w.disk && res.0.bsky == w.bsky && res.0.trace == w.trace
  {
    if cfg.a == Twitter then (w, Twitter.Related(json))
    else if cfg.a.Sky() then
      var b := Bluesky.Related(cfg.env, w.uris, json);
      (w.(uris := b.0), b.1)
    else (w, Mastodon.Related(cfg.env, json, r, cfg.a.Legacy()))
  }

  // ---------------------------------------------------------------- getters

  /** `getPostJsonCached`: read the JSON file the reference would be saved
      in (its path computed with an empty record); an absent file raises
      `FileNotFoundError`, one that is not JSON a decode error. Never new
      work. */
  function CacheGet(a: Adapter, disk: map<string, File>, r: Ref): (res: Outcome<(Json, bool)>)
    ensures res.Ok? <==> PostPath(a, JObj(map[]), r, "").Ok?
                         && PostPath(a, JObj(map[]), r, "").value in disk
                         && disk[PostPath(a, JObj(map[]), r, "").value].Doc?
    ensures res.Ok? ==> res.value == (disk[PostPath(a, JObj(map[]), r, "").value].json, false)
  {
    var p :- PostPath(a, JObj(map[]), r, "");
    if p !in disk then Err(FileNotFound(p))
    else match disk[p]
      case Doc(j) => Ok((j, false))
      case _ => Err(DecodeError(p))
  }

  /** One getter of `JSON_GETTERS`, returning `(json, did_new_work)`. */
  function RunGetter(cfg: Config, w: World, g: Getter, r: Ref): (res: (World, Outcome<(Json, bool)>))
    ensures res.0.disk == w.disk && res.0.trace == w.trace
    ensures g != SkeetApi ==> res.0 == w
    ensures g == Cache ==> res.1 == CacheGet(cfg.a, w.disk, r)
    ensures g != Cache && res.1.Ok? ==> res.1.value.1
  {
    match g
    case Cache => (w, CacheGet(cfg.a, w.disk, r))
    case SkeetApi => Bluesky.SkeetApi(cfg.env, w, r, cfg.a.Legacy())
    case TootApi =>
      (w, match cfg.env.net(TootApi, r)
          case Err(e) => Err(e)
          case Ok(j) =>
            match Mastodon.ApiResult(j, cfg.a.Legacy())
            case Err(e) => Err(e)
            case Ok(j2) => Ok((j2, true)))
    case _ =>
      (w, match cfg.env.net(g, r)
          case Err(e) => Err(e)
          case Ok(j) => Ok((j, true)))
  }

  // ------------------------------------------------------------------ media

  /** The events media saving may produce. */
  predicate MediaEvent(e: Event) {
    e.Fetch? || e.Run? || e.Touch?
  }

  /** `before` is where `after` started. */
  predicate Prefix(before: seq<Event>, after: seq<Event>) {
    |before| <= |after| && after[..|before|] == before
  }

  lemma PrefixTrans(a: seq<Event>, b: seq<Event>, c: seq<Event>)
    requires Prefix(a, b) && Prefix(b, c)
    ensures Prefix(a, c)
  {
    assert c[..|a|] == c[..|b|][..|a|];
  }

  /** `after` extends `before` by media events only. */
  predicate MediaAfter(before: seq<Event>, after: seq<Event>) {
    Prefix(before, after) && forall k :: |before| <= k < |after| ==> MediaEvent(after[k])
  }

  lemma MediaAfterTrans(a: seq<Event>, b: seq<Event>, c: seq<Event>)
    requires MediaAfter(a, b) && MediaAfter(b, c)
    ensures MediaAfter(a, c)
  {
    PrefixTrans(a, b, c);
  }

  /** Where `urlretrieve` tries a URL again when the direct download fails. */
  function Mirror(src: string): string {
    "https://web.archive.org/web/0im_/" + src
  }

  /** `urlretrieve(src, dest)`: download directly, else through the archive
      mirror, else re-raise the first failure. */
  function Download(env: Env, w: World, src: string, dest: string): (res: (World, Outcome<()>))
    ensures res.1.Ok? <==> env.http(src) || env.http(Mirror(src))
    ensures env.http(src) ==> res.0 == w.Put(dest, Blob(src), Fetch(src, dest))
    ensures !env.http(src) && env.http(Mirror(src)) ==> res.0 == w.Put(dest, Blob(Mirror(src)), Fetch(Mirror(src), dest))
    ensures res.1.Err? ==> res == (w, Err(HttpError(src)))
  {
    if env.http(src) then (w.Put(dest, Blob(src), Fetch(src, dest)), Ok(()))
    else if env.http(Mirror(src)) then (w.Put(dest, Blob(Mirror(src)), Fetch(Mirror(src), dest)), Ok(()))
    else (w, Err(HttpError(src)))
  }

  /** `open(dest, 'wb')`: an empty placeholder (truncating any file there). */
  function Placeholder(w: World, dest: string): (w2: World)
    ensures w2.disk == w.disk[dest := Empty] && w2.trace == w.trace + [Touch(dest)]
  {
    w.Put(dest, Empty, Touch(dest))
  }

  /** The `try` body of the current `savePostMedia` for one item whose path
      `dest` is already known, with its `except`: an avatar (a URL holding
      `profile_images`) is saved under the user's `avatar` reference
      instead; a URL loses its query and is fetched unless the file exists;
      a program source runs yt-dlp. Any failure leaves an empty file at the
      path in force when it happened. */
  function SaveOne(cfg: Config, w: World, json: Json, r: Ref, mname: string, src: Src, dest: string): (w2: World)
    ensures w2.bsky == w.bsky && w2.uris == w.uris
    ensures MediaAfter(w.trace, w2.trace)
  {
    match src
    case Url(u) =>
      var target := if Text.Contains(u, "profile_images") then PostPath(cfg.a, json, BaseRef(r.userId, "avatar"), mname) else Ok(dest);
      if target.Err? then Placeholder(w, dest)
      else
        var d := target.value;
        if d in w.disk then w
        else
          var got := Download(cfg.env, w, Text.Before(u, '?'), d);
          if got.1.Ok? then got.0 else Placeholder(w, d)
    case Program(u) =>
      match cfg.env.ytdlp(u, dest)
      case Ok(wrote) => if wrote then w.Put(dest, Blob(u), Run(u, dest)) else w.Emit(Run(u, dest))
      case Err(_) => Placeholder(w.Emit(Run(u, dest)), dest)
  }

  /** The loop of the current `savePostMedia` from item `k` on: the path of
      each item is computed outside the `try`, so its failure ends the
      loop; the generator's own failure is raised after its items. */
  function SaveItems(cfg: Config, w: World, json: Json, r: Ref, y: Yield<(string, Src)>, k: nat): (res: (World, Outcome<()>))
    requires k <= |y.items|
    ensures res.0.bsky == w.bsky && res.0.uris == w.uris
    ensures MediaAfter(w.trace, res.0.trace)
    decreases |y.items| - k
  {
    if k == |y.items| then (w, if y.stop.Some? then Err(y.stop.value) else Ok(()))
    else
      var item := y.items[k];
      match PostPath(cfg.a, json, r, item.0)
      case Err(e) => (w, Err(e))
      case Ok(dest) =>
        var w2 := SaveOne(cfg, w, json, r, item.0, item.1, dest);
        var res := SaveItems(cfg, w2, json, r, y, k + 1);
        MediaAfterTrans(w.trace, w2.trace, res.0.trace);
        res
  }

  /** The loop of the earlier `savePostMedia` from item `k` on: the path is
      computed inside the `try`, so when it fails the `except` touches the
      previous item's path, or raises `UnboundLocalError` when there is
      none. The source is used as given, query and all. */
  function LegacySaveItems(cfg: Config, w: World, json: Json, r: Ref, y: Yield<(string, Src)>, k: nat, prev: Option<string>): (res: (World, Outcome<()>))
    requires k <= |y.items|
    ensures res.0.bsky == w.bsky && res.0.uris == w.uris
    ensures MediaAfter(w.trace, res.0.trace)
    decreases |y.items| - k
  {
    if k == |y.items| then (w, if y.stop.Some? then Err(y.stop.value) else Ok(()))
    else
      var item := y.items[k];
      match PostPath(cfg.a, json, r, item.0)
      case Err(_) =>
        (match prev
         case None => (w, Err(UnboundLocalError))
         case Some(d) =>
           var w2 := Placeholder(w, d);
           var res := LegacySaveItems(cfg, w2, json, r, y, k + 1, prev);
           MediaAfterTrans(w.trace, w2.trace, res.0.trace);
           res)
      case Ok(dest) =>
        var w2 :=
          if dest in w.disk then w
          else
            var got := Download(cfg.env, w, item.1.url, dest);
            if got.1.Ok? then got.0 else Placeholder(w, dest);
        var res := LegacySaveItems(cfg, w2, json, r, y, k + 1, Some(dest));
        MediaAfterTrans(w.trace, w2.trace, res.0.trace);
        res
  }

  /** `savePostMedia` of either plugin. */
  function SaveMedia(cfg: Config, w: World, json: Json, r: Ref): (res: (World, Outcome<()>))
    ensures res.0.bsky == w.bsky && res.0.uris == w.uris
    ensures MediaAfter(w.trace, res.0.trace)
  {
    var y := MediaOf(cfg.a, json);
    if cfg.a.Legacy() then LegacySaveItems(cfg, w, json, r, y, 0, None)
    else SaveItems(cfg, w, json, r, y, 0)
  }

  // -------------------------------------------------------------- recursion

  /** The guard at the top of `getPostJson`: the current plugin refuses a
      user id containing ':' with `NotImplementedError` (and, as written,
      a missing user with `TypeError`); the earlier plugin has no check. */
  function Admit(cfg: Config, r: Ref): (res: Outcome<()>)
    ensures cfg.a.Legacy() ==> res.Ok?
    ensures !cfg.a.Legacy() && r.userId.Some? ==> (res.Ok? <==> ':' !in r.userId.value)
    ensures !cfg.a.Legacy() && r.userId.Some? && res.Err? ==> res.error == NotImplementedError
    ensures !cfg.a.Legacy() && r.userId.None? ==> (res.Ok? <==> cfg.guard.Tolerant?)
  {
    if cfg.a.Legacy() then Ok(())
    else match r.userId
      case None => if cfg.guard.AsWritten? then Err(TypeError) else Ok(())
      case Some(u) => if ':' in u then Err(NotImplementedError) else Ok(())
  }

  /** `getPostJson(r, get_media, _traversed=path)` with `fuel` further
      levels of recursion left before the interpreter's limit. */
  function Resolve(cfg: Config, w: World, r: Ref, getMedia: bool, path: seq<Ref>, fuel: nat): (res: (World, Outcome<Json>))
    ensures Prefix(w.trace, res.0.trace)
    decreases fuel, 4, 0
  {
    if fuel == 0 then (w.Emit(Overflow(r, path)), Err(RecursionError))
    else
      var w1 := w.Emit(Enter(r, path));
      match Admit(cfg, r)
      case Err(e) => (w1, Err(e))
      case Ok(_) => TryGetters(cfg, w1, r, getMedia, path, fuel - 1, 0, TypeError)
  }

  /** The getter loop from getter `i` on. A getter's failure, a failed
      seasoning, or a failure while saving new work all move on to the next
      getter, whose reference is the one seasoning left behind; when none
      is left the last failure is raised (`TypeError` if there was none:
      `raise NotImplemented`). `child` is the fuel of related lookups. */
  function TryGetters(cfg: Config, w: World, r: Ref, getMedia: bool, path: seq<Ref>, child: nat, i: nat, last: Error): (res: (World, Outcome<Json>))
    requires i <= |Getters(cfg.a)|
    ensures Prefix(w.trace, res.0.trace)
    decreases child + 1, 3, |Getters(cfg.a)| - i
  {
    var gs := Getters(cfg.a);
    if i == |gs| then (w, Err(last))
    else
      var got := RunGetter(cfg, w.Emit(Attempt(gs[i], r)), gs[i], r);
      assert Prefix(w.trace, got.0.trace);
      match got.1
      case Err(e) =>
        var res := TryGetters(cfg, got.0, r, getMedia, path, child, i + 1, e);
        PrefixTrans(w.trace, got.0.trace, res.0.trace);
        res
      case Ok(v) =>
        match Season(cfg.a, v.0, r)
        case Err(e) =>
          var res := TryGetters(cfg, got.0, r, getMedia, path, child, i + 1, e);
          PrefixTrans(w.trace, got.0.trace, res.0.trace);
          res
        case Ok(r2) =>
          if !v.1 then (got.0, Ok(v.0))
          else
            var done := FollowUp(cfg, got.0, v.0, r2, getMedia, path, child);
            PrefixTrans(w.trace, got.0.trace, done.0.trace);
            if done.1.Ok? then (done.0, Ok(v.0))
            else
              var res := TryGetters(cfg, done.0, r2, getMedia, path, child, i + 1, done.1.error);
              PrefixTrans(w.trace, done.0.trace, res.0.trace);
              res
  }

  /** New work: save the JSON first, then the media when asked, then look
      up each related post. */
  function FollowUp(cfg: Config, w: World, json: Json, r: Ref, getMedia: bool, path: seq<Ref>, child: nat): (res: (World, Outcome<()>))
    ensures Prefix(w.trace, res.0.trace)
    decreases child + 1, 2, 0
  {
    match PostPath(cfg.a, json, r, "")
    case Err(e) => (w, Err(e))
    case Ok(p) =>
      var w1 := w.Put(p, Doc(json), Save(p));
      var m := if getMedia then SaveMedia(cfg, w1, json, r) else (w1, Ok(()));
      assert Prefix(w.trace, w1.trace) && Prefix(w1.trace, m.0.trace);
      PrefixTrans(w.trace, w1.trace, m.0.trace);
      if m.1.Err? then (m.0, Err(m.1.error))
      else
        var rel := RelatedOf(cfg, m.0, json, r);
        var res := RecurseAll(cfg, rel.0, rel.1, 0, r, path, child);
        PrefixTrans(w.trace, m.0.trace, res.0.trace);
        res
  }

  /** The loop over the related posts from item `k` on: a post already on
      the call chain `path` is skipped, any other is looked up (with media)
      with `r` appended to the chain; a failure ends the loop, and the
      generator's own failure is raised after its items. */
  function RecurseAll(cfg: Config, w: World, rel: Yield<Ref>, k: nat, r: Ref, path: seq<Ref>, child: nat): (res: (World, Outcome<()>))
    requires k <= |rel.items|
    ensures Prefix(w.trace, res.0.trace)
    decreases child + 1, 1, |rel.items| - k
  {
    if k == |rel.items| then (w, if rel.stop.Some? then Err(rel.stop.value) else Ok(()))
    else if rel.items[k] in path then RecurseAll(cfg, w, rel, k + 1, r, path, child)
    else
      var sub := Resolve(cfg, w, rel.items[k], true, path + [r], child);
      if sub.1.Err? then (sub.0, Err(sub.1.error))
      else
        var res := RecurseAll(cfg, sub.0, rel, k + 1, r, path, child);
        PrefixTrans(w.trace, sub.0.trace, res.0.trace);
        res
  }
}
