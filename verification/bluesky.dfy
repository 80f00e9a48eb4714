/** The Bluesky adapter (`PermaBluesky`) of the current plugin
    (perma_social/perma_bluesky.py) and, with `legacy` set, of the earlier
    single-file plugin (perma_social.py), which differs only in the media
    names and in having no post cache. */
module Bluesky {
  import opened Wrappers
  import opened Json
  import opened Social
  import opened Links
  import Text
  import Paths

  // ---------------------------------------------------------------- LINK_RE

  /** `bsky.app/profile/` at `h`, the '.' being any character but a newline. */
  predicate HostAt(s: string, h: nat) {
    LitAt(s, h, "bsky") && h + 4 < |s| && s[h + 4] != '\n' && LitAt(s, h + 5, "app/profile/")
  }

  /** A match of the pattern after the optional `www.`, with the host at `h`. */
  predicate Shape(s: string, i: nat, h: nat, m: LinkMatch) {
    var u0 := h + 17;
    var u1 := u0 + |m.user|;
    HostAt(s, h)
    && m.start == i && m.instance == ""
    && u1 + 6 + |m.post| == m.end <= |s|
    && s[u0..u1] == m.user && LitAt(s, u1, "/post/") && s[u1 + 6..m.end] == m.post
    && Paths.Plain(m.user)
    && |m.post| > 0 && ' ' !in m.post && ')' !in m.post
    && (m.end == |s| || s[m.end] == ' ' || s[m.end] == ')')
  }

  function From(s: string, i: nat, h: nat): (m: Option<LinkMatch>)
    ensures m.Some? ==> Shape(s, i, h, m.value)
  {
    if !HostAt(s, h) then None
    else
      var u0 := h + 17;
      var u1 := RunEnd(s, u0, {'/'});
      if u1 == u0 || !LitAt(s, u1, "/post/") then None
      else
        var d := RunEnd(s, u1 + 6, {' ', ')'});
        if d == u1 + 6 then None
        else
          ShapeIntro(s, i, h, u1, d);
          Some(LinkMatch(i, d, "", s[u0..u1], s[u1 + 6..d]))
  }

  lemma ShapeIntro(s: string, i: nat, h: nat, u1: nat, d: nat)
    requires HostAt(s, h)
    requires h + 17 < u1 && u1 + 6 < d <= |s| && LitAt(s, u1, "/post/")
    requires forall k :: h + 17 <= k < u1 ==> s[k] != '/'
    requires forall k :: u1 + 6 <= k < d ==> s[k] != ' ' && s[k] != ')'
    requires d == |s| || s[d] == ' ' || s[d] == ')'
    ensures Shape(s, i, h, LinkMatch(i, d, "", s[h + 17..u1], s[u1 + 6..d]))
  {
    var user := s[h + 17..u1];
    forall k | 0 <= k < |user|
      ensures user[k] != '/'
    {
      assert user[k] == s[h + 17 + k];
    }
    var post := s[u1 + 6..d];
    forall k | 0 <= k < |post|
      ensures post[k] != ' ' && post[k] != ')'
    {
      assert post[k] == s[u1 + 6 + k];
    }
  }

  /** `re.match(LINK_RE, s[i:])` for
      `(https|http)://(www.){0,1}bsky.app/profile/(?P<user_id>[^/]+)/post/(?P<post_id>[^ )]+)`:
      the optional group is tried first, then skipped. */
  function LinkAt(s: string, i: nat): (m: Option<LinkMatch>)
    requires i <= |s|
    ensures m.Some? ==> SchemeEnd(s, i).Some?
    ensures m.Some? ==> var a := SchemeEnd(s, i).value;
                        (WwwAt(s, a) && Shape(s, i, a + 4, m.value)) || Shape(s, i, a, m.value)
  {
    match SchemeEnd(s, i)
    case None => None
    case Some(a) =>
      if WwwAt(s, a) && From(s, i, a + 4).Some? then From(s, i, a + 4) else From(s, i, a)
  }

  /** The post link the adapter's template writes. */
  function Link(www: bool, user: string, post: string): string {
    "https://" + WwwPart(www) + "bsky.app/profile/" + user + "/post/" + post
  }

  lemma FromComplete(s: string, i: nat, h: nat, m: LinkMatch)
    requires Shape(s, i, h, m)
    ensures From(s, i, h) == Some(m)
  {
    ShapeRuns(s, i, h, m);
    FromRuns(s, i, h, h + 17 + |m.user|, m.end);
  }

  /** The runs a well-shaped link is made of. */
  lemma ShapeRuns(s: string, i: nat, h: nat, m: LinkMatch)
    requires Shape(s, i, h, m)
    ensures var u0 := h + 17;
            var u1 := u0 + |m.user|;
            var d := m.end;
            && u0 < u1 && u1 + 6 < d <= |s| && HostAt(s, h) && LitAt(s, u1, "/post/") && s[u1] == '/'
            && (forall k :: u0 <= k < u1 ==> s[k] !in {'/'})
            && (forall k :: u1 + 6 <= k < d ==> s[k] !in {' ', ')'})
            && (d == |s| || s[d] in {' ', ')'})
            && m == LinkMatch(i, d, "", s[u0..u1], s[u1 + 6..d])
  {
    var u0 := h + 17;
    var u1 := u0 + |m.user|;
    var d := m.end;
    forall k | u0 <= k < u1
      ensures s[k] !in {'/'}
    {
      assert s[k] == m.user[k - u0];
    }
    forall k | u1 + 6 <= k < d
      ensures s[k] !in {' ', ')'}
    {
      assert s[k] == m.post[k - u1 - 6];
    }
    assert s[u1] == s[u1..u1 + 6][0] == '/';
  }

  lemma FromRuns(s: string, i: nat, h: nat, u1: nat, d: nat)
    requires h + 17 < u1 && u1 + 6 < d <= |s| && HostAt(s, h) && LitAt(s, u1, "/post/") && s[u1] == '/'
    requires forall k :: h + 17 <= k < u1 ==> s[k] !in {'/'}
    requires forall k :: u1 + 6 <= k < d ==> s[k] !in {' ', ')'}
    requires d == |s| || s[d] in {' ', ')'}
    ensures From(s, i, h) == Some(LinkMatch(i, d, "", s[h + 17..u1], s[u1 + 6..d]))
  {
    RunEndUnique(s, h + 17, u1, {'/'});
    RunEndUnique(s, u1 + 6, d, {' ', ')'});
  }

  lemma LinkAtComplete(s: string, i: nat, www: bool, m: LinkMatch)
    requires LitAt(s, i, "https://")
    requires www ==> LitAt(s, i + 8, "www.") && Shape(s, i, i + 12, m)
    requires !www ==> Shape(s, i, i + 8, m) && s[i + 8] != 'w'
    ensures LinkAt(s, i) == Some(m)
  {
    var a := i + 8;
    assert SchemeEnd(s, i) == Some(a);
    if www {
      WwwLit(s, a);
      FromComplete(s, i, a + 4, m);
    } else {
      NotWww(s, a);
      FromComplete(s, i, a, m);
    }
  }

  lemma LinkPieces(pre: string, w: string, user: string, post: string, rest: string)
    ensures var s := pre + ("https://" + w + "bsky.app/profile/" + user + "/post/" + post) + rest;
            var h := |pre| + 8 + |w|;
            var u0 := h + 17;
            var u1 := u0 + |user|;
            && LitAt(s, |pre|, "https://") && s[|pre| + 8..h] == w && LitAt(s, h, "bsky.app/profile/")
            && s[u0..u1] == user && LitAt(s, u1, "/post/") && s[u1 + 6..u1 + 6 + |post|] == post
            && s[u1 + 6 + |post|..] == rest
  {
    var s := pre + ("https://" + w + "bsky.app/profile/" + user + "/post/" + post) + rest;
    assert s == pre + "https://" + w + "bsky.app/profile/" + user + "/post/" + post + rest;
  }

  /** Round trip: a post link followed by the end of the text, a space or a
      ')' parses back to its handle and record key, with or without `www.`. */
  lemma LinkRoundTrip(pre: string, www: bool, user: string, post: string, rest: string)
    requires Paths.Plain(user)
    requires |post| > 0 && ' ' !in post && ')' !in post
    requires rest == [] || rest[0] == ' ' || rest[0] == ')'
    ensures LinkAt(pre + Link(www, user, post) + rest, |pre|)
         == Some(LinkMatch(|pre|, |pre| + |Link(www, user, post)|, "", user, post))
  {
    LinkPieces(pre, WwwPart(www), user, post, rest);
    ParsesBack(pre + Link(www, user, post) + rest, |pre|, www,
               LinkMatch(|pre|, |pre| + |Link(www, user, post)|, "", user, post), rest);
  }

  lemma ParsesBack(s: string, i: nat, www: bool, m: LinkMatch, rest: string)
    requires var h := i + 8 + |WwwPart(www)|;
             var u1 := h + 17 + |m.user|;
             && m.start == i && m.instance == "" && m.end == u1 + 6 + |m.post| && m.end + |rest| == |s|
             && LitAt(s, i, "https://") && s[i + 8..h] == WwwPart(www) && LitAt(s, h, "bsky.app/profile/")
             && s[h + 17..u1] == m.user && LitAt(s, u1, "/post/") && s[u1 + 6..m.end] == m.post
             && s[m.end..] == rest
    requires Paths.Plain(m.user)
    requires |m.post| > 0 && ' ' !in m.post && ')' !in m.post
    requires rest == [] || rest[0] == ' ' || rest[0] == ')'
    ensures LinkAt(s, i) == Some(m)
  {
    var h := i + 8 + |WwwPart(www)|;
    HostLiteral(s, h);
    assert s[h] == s[h..h + 17][0] == 'b';
    if m.end < |s| {
      assert s[m.end] == s[m.end..][0] == rest[0];
    }
    assert Shape(s, i, h, m);
    LinkAtComplete(s, i, www, m);
  }

  lemma HostLiteral(s: string, h: nat)
    requires LitAt(s, h, "bsky.app/profile/")
    ensures HostAt(s, h)
  {
    assert s[h..h + 4] == s[h..h + 17][..4];
    assert "bsky.app/profile/"[..4] == "bsky";
    assert s[h + 4] == s[h..h + 17][4] == '.';
    assert s[h + 5..h + 17] == s[h..h + 17][5..];
    assert "bsky.app/profile/"[5..] == "app/profile/";
  }

  // ------------------------------------------------------------------ media

  /** `json_obj.get('embed', {}).get('images', [])`, iterated. */
  function Images(json: Json): Outcome<seq<Json>> {
    var embed :- GetOr(json, "embed", JObj(map[]));
    var images :- GetOr(embed, "images", JArr([]));
    Iterate(images)
  }

  /** One image as `getPostMedia` yields it: the `fullsize` URL, named by its
      last path segment with each '@' turned into '.' and, in the current
      plugin, cut at the first '?'. */
  function MediaItem(image: Json, legacy: bool): (r: Outcome<(string, Src)>)
    ensures r.Ok? ==> r.value.1.Url? && Index(image, "fullsize") == Ok(JStr(r.value.1.url))
    ensures r.Ok? ==> '/' !in r.value.0 && '@' !in r.value.0
    ensures r.Ok? && !legacy ==> '?' !in r.value.0
    ensures r.Ok? && legacy ==> |r.value.0| <= |r.value.1.url|
  {
    var src :- Index(image, "fullsize");
    var url :- PathArg(src);
    var name := Text.SubstChar(Paths.Tail(url), '@', '.');
    Ok((if legacy then name else Text.Before(name, '?'), Url(url)))
  }

  /** `getPostMedia`: one entry per image of the embed. */
  function Media(json: Json, legacy: bool): (y: Yield<(string, Src)>)
    ensures Images(json).Err? ==> y == Raise(Images(json).error)
    ensures Images(json).Ok? ==> y == Collect(Images(json).value, x => MediaItem(x, legacy))
  {
    match Images(json)
    case Err(e) => Raise(e)
    case Ok(xs) => Collect(xs, x => MediaItem(x, legacy))
  }

  /** A record without an embed yields nothing. */
  lemma NoEmbedNoMedia(json: Json, legacy: bool)
    requires json.JObj? && "embed" !in json.fields
    ensures Media(json, legacy) == Yield([], None)
  {
  }

  /** The current plugin yields the same images as the earlier one, each
      name cut at its first '?'. */
  lemma {:induction false} ModernCutsQuery(xs: seq<Json>)
    ensures var m := Collect(xs, x => MediaItem(x, false));
            var l := Collect(xs, x => MediaItem(x, true));
            && m.stop == l.stop && |m.items| == |l.items|
            && forall k :: 0 <= k < |m.items| ==> m.items[k] == (Text.Before(l.items[k].0, '?'), l.items[k].1)
    decreases |xs|
  {
    if |xs| > 0 {
      ModernCutsQuery(xs[1..]);
    }
  }

  // ------------------------------------------------------------- the URIs

  /** The `at://` URI of a post of the account with DID `did`. */
  function AtUri(did: string, post: string): string {
    "at://" + did + "/app.bsky.feed.post/" + post
  }

  /** `bskyTupleToUri`: a truthy URI recorded for the reference, else the URI
      built from the handle's DID. */
  function TupleToUri(did: Option<string> -> Outcome<string>, uris: map<Ref, Json>, r: Ref): (u: Outcome<Json>)
    ensures r in uris && Truthy(uris[r]) ==> u == Ok(uris[r])
    ensures !(r in uris && Truthy(uris[r])) && did(r.userId).Err? ==> u == Err(did(r.userId).error)
    ensures !(r in uris && Truthy(uris[r])) && did(r.userId).Ok?
            ==> u.Ok? && u.value.JStr? && Text.StartsWith(u.value.s, "at://" + did(r.userId).value)
  {
    if r in uris && Truthy(uris[r]) then Ok(uris[r])
    else
      var d :- did(r.userId);
      Ok(JStr(AtUri(d, r.postId)))
  }

  /** A built URI ends in the record key, so the reference read back from a
      post with that URI has the same post id. */
  lemma AtUriTail(did: string, post: string)
    requires '/' !in post
    ensures Paths.Tail(AtUri(did, post)) == post
  {
    AtUriSplit(did, post);
    Paths.TailOfJoin("at://" + did + "/app.bsky.feed.post", post);
  }

  lemma AtUriSplit(did: string, post: string)
    ensures AtUri(did, post) == ("at://" + did + "/app.bsky.feed.post") + "/" + post
  {
    assert "/app.bsky.feed.post/" == "/app.bsky.feed.post" + "/";
  }

  /** `bskyPostToRef`: the adapter's reference to a post of a thread,
      `(author.handle, last segment of uri)`. */
  function PostToRef(post: Json): (r: Outcome<Ref>)
    ensures r.Ok? ==> r.value.cls == Sub && r.value.instance.None? && !r.value.postNum
    ensures r.Ok? ==> Index(post, "uri").Ok? && Index(post, "uri").value.JStr?
                      && r.value.postId == Paths.Tail(Index(post, "uri").value.s)
    ensures r.Ok? ==> Index(post, "author").Ok? && Index(Index(post, "author").value, "handle").Ok?
                      && r.value.userId == Ident(Index(Index(post, "author").value, "handle").value)
  {
    var author :- Index(post, "author");
    var handle :- Index(author, "handle");
    var uri :- Index(post, "uri");
    var u :- PathArg(uri);
    Ok(PostRef(Ident(handle), Paths.Tail(u)))
  }

  /** `bskyEncachenPost`: a falsy post is ignored; any other post records its
      URI under its reference. */
  function Encachen(uris: map<Ref, Json>, post: Json): (r: Outcome<map<Ref, Json>>)
    ensures !Truthy(post) ==> r == Ok(uris)
    ensures Truthy(post) ==> (r.Ok? <==> PostToRef(post).Ok?)
    ensures Truthy(post) && r.Ok? ==> r.value == uris[PostToRef(post).value := Index(post, "uri").value]
  {
    if !Truthy(post) then Ok(uris)
    else
      var ref :- PostToRef(post);
      Ok(uris[ref := Index(post, "uri").value])
  }

  /** Round trip: once a post has been recorded, the reference read back from
      it resolves to that post's URI without asking for a DID. */
  lemma EncachenThenLookup(uris: map<Ref, Json>, post: Json, did: Option<string> -> Outcome<string>)
    requires Truthy(post) && Encachen(uris, post).Ok?
    requires Truthy(Index(post, "uri").value)
    ensures TupleToUri(did, Encachen(uris, post).value, PostToRef(post).value) == Index(post, "uri")
  {
  }

  /** A post whose URI was built for a reference reads back as a reference
      with the same handle and post id (a `str`, as every Bluesky post id
      is). */
  lemma BuiltUriReadsBack(r: Ref, did: string, handle: string, post: Json)
    requires r.cls == Sub && r.instance.None? && r.userId == Some(handle) && '/' !in r.postId && !r.postNum
    requires post.JObj? && "author" in post.fields && "uri" in post.fields
    requires Index(post.fields["author"], "handle") == Ok(JStr(handle))
    requires post.fields["uri"] == JStr(AtUri(did, r.postId))
    ensures PostToRef(post) == Ok(r)
  {
    AtUriTail(did, r.postId);
  }

  // ------------------------------------------------------------- threads

  /** A result with the URI cache as it stands when the call returns or
      raises. */
  datatype Step<T> = Step(uris: map<Ref, Json>, out: Outcome<T>)

  /** `thread_response['thread']['post']`. */
  function ThreadPost(resp: Json): Outcome<Json> {
    var th :- Index(resp, "thread");
    Index(th, "post")
  }

  /** `thread.get('parent', {}).get('post')` of a thread object. */
  function ParentPost(th: Json): Outcome<Json> {
    var parent :- GetOr(th, "parent", JObj(map[]));
    Get(parent, "post")
  }

  /** `bskyGetThread`: fetch the thread of a reference's URI, then record the
      post, its parent's post and every reply's post, in that order; a
      failure part way keeps what was recorded before it. */
  function GetThread(env: Env, uris: map<Ref, Json>, r: Ref): (st: Step<Json>)
    ensures st.out.Ok? ==> ThreadPost(st.out.value).Ok?
    ensures st.out.Ok? ==> exists uri :: TupleToUri(env.did, uris, r) == Ok(uri) && env.thread(uri) == st.out
  {
    var fetched := (var uri :- TupleToUri(env.did, uris, r);
                    var resp :- env.thread(uri);
                    var post :- ThreadPost(resp);
                    Ok((resp, post)));
    match fetched
    case Err(e) => Step(uris, Err(e))
    case Ok(got) =>
      var resp := got.0;
      var post := got.1;
      var th := Index(resp, "thread").value;
      match Encachen(uris, post)
      case Err(e) => Step(uris, Err(e))
      case Ok(u1) =>
        match ParentPost(th)
        case Err(e) => Step(u1, Err(e))
        case Ok(pp) =>
          match Encachen(u1, pp)
          case Err(e) => Step(u1, Err(e))
          case Ok(u2) =>
            match Iterate(GetOr(th, "replies", JArr([])).value)
            case Err(e) => Step(u2, Err(e))
            case Ok(xs) =>
              var st := EncachenReplies(u2, xs);
              Step(st.uris, if st.out.Err? then Err(st.out.error) else Ok(resp))
  }

  /** Records the post of each reply in turn. */
  function EncachenReplies(uris: map<Ref, Json>, xs: seq<Json>): (st: Step<()>)
    ensures st.out.Ok? ==> forall k :: 0 <= k < |xs| ==> Index(xs[k], "post").Ok?
    decreases |xs|
  {
    if |xs| == 0 then Step(uris, Ok(()))
    else
      match Index(xs[0], "post")
      case Err(e) => Step(uris, Err(e))
      case Ok(post) =>
        match Encachen(uris, post)
        case Err(e) => Step(uris, Err(e))
        case Ok(u1) => EncachenReplies(u1, xs[1..])
  }

  /** `getSkeetJsonApi`. The current plugin first serves a truthy
      `BSKY_CACHE` entry, as new work; otherwise it fetches the thread, sets
      the post's `id` to the requested post id, stores it in `BSKY_CACHE`,
      then stores each reply's post under its own reference with its own
      `id`. The earlier plugin has no cache and returns the post with its
      `id` set. */
  function SkeetApi(env: Env, w: World, r: Ref, legacy: bool): (res: (World, Outcome<(Json, bool)>))
    ensures res.0.disk == w.disk && res.0.trace == w.trace
    ensures res.1.Ok? ==> res.1.value.1
    ensures !legacy && r in w.bsky && Truthy(w.bsky[r]) ==> res == (w, Ok((w.bsky[r], true)))
    ensures legacy ==> res.0.bsky == w.bsky
    ensures res.1.Ok? && !(!legacy && r in w.bsky && Truthy(w.bsky[r]))
            ==> GetThread(env, w.uris, r).out.Ok?
                && SetField(ThreadPost(GetThread(env, w.uris, r).out.value).value, "id", JStr(r.postId)) == Ok(res.1.value.0)
    ensures !legacy && res.1.Ok? ==> r in res.0.bsky
    ensures !legacy ==> Fresh(w.bsky, res.0.bsky)
  {
    var c := SkeetLookup(env, w.bsky, w.uris, r, legacy);
    if !legacy && r in w.bsky && Truthy(w.bsky[r]) then (w, c.2)
    else (w.(bsky := c.0, uris := c.1), c.2)
  }

  /** The work of `SkeetApi` on the two caches it reads and writes. */
  function SkeetLookup(env: Env, bsky: map<Ref, Json>, uris: map<Ref, Json>, r: Ref, legacy: bool)
    : (res: (map<Ref, Json>, map<Ref, Json>, Outcome<(Json, bool)>))
    ensures !legacy ==> Fresh(bsky, res.0)
  {
    if !legacy && r in bsky && Truthy(bsky[r]) then (bsky, uris, Ok((bsky[r], true)))
    else
      var st := GetThread(env, uris, r);
      match st.out
      case Err(e) => (bsky, st.uris, Err(e))
      case Ok(resp) =>
        var th := Index(resp, "thread").value;
        match SetField(Index(th, "post").value, "id", JStr(r.postId))
        case Err(e) => (bsky, st.uris, Err(e))
        case Ok(j) =>
          if legacy then (bsky, st.uris, Ok((j, true)))
          else
            var b1 := bsky[r := j];
            StoreOne(bsky, r, Index(th, "post").value);
            var fetched := (var rs :- Index(th, "replies"); Iterate(rs));
            match fetched
            case Err(e) => (b1, st.uris, Err(e))
            case Ok(xs) =>
              var b := StoreReplies(b1, xs);
              FreshTrans(bsky, b1, b.0);
              (b.0, st.uris, if b.1.Err? then Err(b.1.error) else Ok((j, true)))
  }

  /** The API getter does not look at the events recorded so far. */
  lemma SkeetApiTraceFree(env: Env, w: World, r: Ref, legacy: bool, t: seq<Event>)
    ensures SkeetApi(env, w.(trace := t), r, legacy)
         == (SkeetApi(env, w, r, legacy).0.(trace := t), SkeetApi(env, w, r, legacy).1)
  {
    var wt := w.(trace := t);
    assert wt.bsky == w.bsky && wt.uris == w.uris;
  }

  /** Every entry that was added or changed carries its reference's post id
      as its `id`, and no entry was removed. */
  predicate Fresh(before: map<Ref, Json>, after: map<Ref, Json>) {
    (forall q :: q in before ==> q in after)
    && forall q :: q in after && (q !in before || after[q] != before[q]) ==> Stamped(after[q], q)
  }

  predicate Stamped(post: Json, q: Ref) {
    Index(post, "id") == Ok(JStr(q.postId))
  }

  lemma FreshTrans(a: map<Ref, Json>, b: map<Ref, Json>, c: map<Ref, Json>)
    requires Fresh(a, b) && Fresh(b, c)
    ensures Fresh(a, c)
  {
    forall q | q in c && (q !in a || c[q] != a[q])
      ensures Stamped(c[q], q)
    {
      if q in b && c[q] == b[q] {
        assert q !in a || b[q] != a[q];
      }
    }
  }

  /** Storing one post, stamped with its reference's post id. */
  lemma StoreOne(bsky: map<Ref, Json>, q: Ref, post: Json)
    requires post.JObj?
    ensures Fresh(bsky, bsky[q := SetField(post, "id", JStr(q.postId)).value])
  {
    var after := bsky[q := SetField(post, "id", JStr(q.postId)).value];
    assert Index(after[q], "id") == Ok(JStr(q.postId));
  }

  /** Stores each reply's post under its reference, with `id` set to that
      reference's post id. */
  function StoreReplies(bsky: map<Ref, Json>, xs: seq<Json>): (res: (map<Ref, Json>, Outcome<()>))
    ensures Fresh(bsky, res.0)
    decreases |xs|
  {
    if |xs| == 0 then (bsky, Ok(()))
    else
      match ReplyRef(xs[0])
      case Err(e) => (bsky, Err(e))
      case Ok(pr2) =>
        var post := Index(xs[0], "post").value;
        var b1 := bsky[pr2 := SetField(post, "id", JStr(pr2.postId)).value];
        StoreOne(bsky, pr2, post);
        var res := StoreReplies(b1, xs[1..]);
        FreshTrans(bsky, b1, res.0);
        res
  }

  /** Storing the replies succeeds only when each reply has a reference. */
  lemma {:induction false} StoreRepliesNeedRefs(bsky: map<Ref, Json>, xs: seq<Json>)
    ensures StoreReplies(bsky, xs).1.Ok? ==> forall k :: 0 <= k < |xs| ==> ReplyRef(xs[k]).Ok?
    decreases |xs|
  {
    if |xs| > 0 && ReplyRef(xs[0]).Ok? {
      var pr2 := ReplyRef(xs[0]).value;
      var b1 := bsky[pr2 := SetField(Index(xs[0], "post").value, "id", JStr(pr2.postId)).value];
      StoreRepliesNeedRefs(b1, xs[1..]);
      assert forall k :: 1 <= k < |xs| ==> xs[1..][k - 1] == xs[k];
    }
  }

  /** The current plugin's getter fails on a thread without `replies`, after
      it has stored the post itself. */
  lemma MissingRepliesFails(env: Env, w: World, r: Ref)
    requires !(r in w.bsky && Truthy(w.bsky[r]))
    requires GetThread(env, w.uris, r).out.Ok?
    requires var resp := GetThread(env, w.uris, r).out.value;
             Index(resp, "thread").Ok? && Index(resp, "thread").value.JObj?
             && "replies" !in Index(resp, "thread").value.fields
             && Index(Index(resp, "thread").value, "post").value.JObj?
    ensures SkeetApi(env, w, r, false).1 == Err(KeyError("replies"))
    ensures r in SkeetApi(env, w, r, false).0.bsky
  {
  }

  // --------------------------------------------------------------- related

  /** The reference `getRelatedPosts` looks the thread up by:
      `(author.handle, id)`. */
  function RelatedRef(json: Json): Outcome<Ref> {
    var author :- Index(json, "author");
    var handle :- Index(author, "handle");
    var id :- Index(json, "id");
    Ok(PostRef(Ident(handle), Display(id)))
  }

  /** `getRelatedPosts`: fetch the thread of the post's own reference, then
      yield the references of its thread (`ThreadRefs`). */
  function Related(env: Env, uris: map<Ref, Json>, json: Json): (res: (map<Ref, Json>, Yield<Ref>))
    ensures RelatedRef(json).Err? ==> res == (uris, Raise(RelatedRef(json).error))
    ensures RelatedRef(json).Ok? ==> var st := GetThread(env, uris, RelatedRef(json).value);
                                     && res.0 == st.uris
                                     && (st.out.Err? ==> res.1 == Raise(st.out.error))
                                     && (st.out.Ok? ==> res.1 == ThreadRefs(Index(st.out.value, "thread").value))
    ensures AllPostRefs(res.1.items)
  {
    match RelatedRef(json)
    case Err(e) => (uris, Raise(e))
    case Ok(r) =>
      var st := GetThread(env, uris, r);
      match st.out
      case Err(e) => (st.uris, Raise(e))
      case Ok(resp) => (st.uris, ThreadRefs(Index(resp, "thread").value))
  }

  /** The parent's post, when the thread has a truthy parent, then each
      reply's post, as references. */
  function ThreadRefs(th: Json): (y: Yield<Ref>)
    ensures AllPostRefs(y.items)
  {
    match Get(th, "parent")
    case Err(e) => Raise(e)
    case Ok(parent) =>
      var first := ParentRefs(parent);
      var rest := ReplyRefs(th);
      AllPostRefsConcat(first.items, rest.items);
      first.Then(rest)
  }

  predicate AllPostRefs(rs: seq<Ref>) {
    forall k :: 0 <= k < |rs| ==> rs[k].cls == Sub && rs[k].instance.None?
  }

  lemma AllPostRefsConcat(a: seq<Ref>, b: seq<Ref>)
    requires AllPostRefs(a) && AllPostRefs(b)
    ensures AllPostRefs(a + b)
  {
  }

  function ParentRefs(parent: Json): (y: Yield<Ref>)
    ensures AllPostRefs(y.items)
  {
    if !Truthy(parent) then Yield([], None)
    else match ReplyRef(parent)
      case Ok(q) => Yield([q], None)
      case Err(e) => Raise(e)
  }

  function ReplyRefs(th: Json): (y: Yield<Ref>)
    ensures AllPostRefs(y.items)
  {
    match GetOr(th, "replies", JArr([]))
    case Err(e) => Raise(e)
    case Ok(rs) =>
      match Iterate(rs)
      case Err(e) => Raise(e)
      case Ok(xs) => Collect(xs, ReplyRef)
  }

  function ReplyRef(reply: Json): (r: Outcome<Ref>)
    ensures r.Ok? ==> r.value.cls == Sub && r.value.instance.None?
  {
    var p :- Index(reply, "post");
    PostToRef(p)
  }

  /** With a parent, the parent comes first and the replies follow in
      order; without one, the replies alone. */
  lemma RelatedOrder(th: Json, xs: seq<Json>)
    requires th.JObj? && GetOr(th, "replies", JArr([])) == Ok(JArr(xs))
    requires forall k :: 0 <= k < |xs| ==> ReplyRef(xs[k]).Ok?
    ensures var parent := Get(th, "parent").value;
            var ys := ThreadRefs(th);
            && (!Truthy(parent) ==>
                  ys.stop.None? && |ys.items| == |xs| && forall k :: 0 <= k < |xs| ==> ys.items[k] == ReplyRef(xs[k]).value)
            && (Truthy(parent) && ys.stop.None?
                ==> (|ys.items| == |xs| + 1
                     && ys.items[0] == ReplyRef(parent).value
                     && forall k :: 1 <= k < |ys.items| ==> ys.items[k] == ReplyRef(xs[k - 1]).value))
  {
    RepliesInOrder(th, xs);
    var rest := ReplyRefs(th);
    var parent := Get(th, "parent").value;
    var first := ParentRefs(parent);
    assert ThreadRefs(th) == first.Then(rest);
    if Truthy(parent) && ThreadRefs(th).stop.None? {
      assert first == Yield([ReplyRef(parent).value], None);
      ConsShift(ReplyRef(parent).value, rest.items, ThreadRefs(th).items);
    } else if !Truthy(parent) {
      assert first == Yield([], None);
      assert [] + rest.items == rest.items;
      assert ThreadRefs(th) == rest;
    }
  }

  lemma ConsShift<T>(a: T, rs: seq<T>, items: seq<T>)
    requires items == [a] + rs
    ensures |items| == |rs| + 1 && items[0] == a
    ensures forall k :: 1 <= k < |items| ==> items[k] == rs[k - 1]
  {
  }

  /** Each reply's reference, in order, when every reply has one. */
  lemma RepliesInOrder(th: Json, xs: seq<Json>)
    requires th.JObj? && GetOr(th, "replies", JArr([])) == Ok(JArr(xs))
    requires forall k :: 0 <= k < |xs| ==> ReplyRef(xs[k]).Ok?
    ensures var y := ReplyRefs(th);
            y.stop.None? && |y.items| == |xs| && forall k :: 0 <= k < |xs| ==> y.items[k] == ReplyRef(xs[k]).value
  {
    CollectAll(xs, ReplyRef);
  }
}
