/** The Twitter adapter (`PermaTwitter`, perma_social/perma_twitter.py) and
    the template filters defined beside it. */
module Twitter {
  import opened Wrappers
  import opened Json
  import opened Social
  import opened Links
  import Text
  import Paths
  import Store

  // ---------------------------------------------------------------- LINK_RE

  /** `\d`, taken as the ASCII digits. */
  predicate IsDigit(c: char) {
    '0' <= c <= '9'
  }

  /** The end of the greedy run `\d*` that starts at `i`. */
  function DigitsEnd(s: string, i: nat): (j: nat)
    requires i <= |s|
    ensures i <= j <= |s|
    ensures forall k :: i <= k < j ==> IsDigit(s[k])
    ensures j < |s| ==> !IsDigit(s[j])
    decreases |s| - i
  {
    if i == |s| || !IsDigit(s[i]) then i else DigitsEnd(s, i + 1)
  }

  lemma {:induction false} DigitsEndUnique(s: string, i: nat, j: nat)
    requires i <= j <= |s|
    requires forall k :: i <= k < j ==> IsDigit(s[k])
    requires j == |s| || !IsDigit(s[j])
    ensures DigitsEnd(s, i) == j
    decreases j - i
  {
    if i < j {
      DigitsEndUnique(s, i + 1, j);
    }
  }

  /** `(twitter|x)\.com/` at `h`: where the user name starts. */
  function HostEnd(s: string, h: nat): (e: Option<nat>)
    ensures e.Some? ==> (LitAt(s, h, "twitter.com/") && e.value == h + 12) || (LitAt(s, h, "x.com/") && e.value == h + 6)
    ensures e.None? <==> !LitAt(s, h, "twitter.com/") && !LitAt(s, h, "x.com/")
  {
    if LitAt(s, h, "twitter.com/") then Some(h + 12)
    else if LitAt(s, h, "x.com/") then Some(h + 6)
    else None
  }

  /** A match of the pattern after the optional `www.`, with the host at `h`:
      a user name free of '/', "/status/", and the maximal digit run. */
  predicate Shape(s: string, i: nat, h: nat, m: LinkMatch) {
    HostEnd(s, h).Some?
    && var u0 := HostEnd(s, h).value;
    var u1 := u0 + |m.user|;
    m.start == i && m.instance == ""
    && u1 + 8 + |m.post| == m.end <= |s|
    && s[u0..u1] == m.user && LitAt(s, u1, "/status/") && s[u1 + 8..m.end] == m.post
    && Paths.Plain(m.user)
    && |m.post| > 0 && (forall k :: 0 <= k < |m.post| ==> IsDigit(m.post[k]))
    && (m.end == |s| || !IsDigit(s[m.end]))
  }

  function From(s: string, i: nat, h: nat): (m: Option<LinkMatch>)
    ensures m.Some? ==> Shape(s, i, h, m.value)
  {
    match HostEnd(s, h)
    case None => None
    case Some(u0) =>
      var u1 := RunEnd(s, u0, {'/'});
      if u1 == u0 || !LitAt(s, u1, "/status/") then None
      else
        var d := DigitsEnd(s, u1 + 8);
        if d == u1 + 8 then None
        else
          ShapeIntro(s, i, h, u0, u1, d);
          Some(LinkMatch(i, d, "", s[u0..u1], s[u1 + 8..d]))
  }

  lemma ShapeIntro(s: string, i: nat, h: nat, u0: nat, u1: nat, d: nat)
    requires HostEnd(s, h) == Some(u0)
    requires u0 < u1 && u1 + 8 < d <= |s| && LitAt(s, u1, "/status/")
    requires forall k :: u0 <= k < u1 ==> s[k] != '/'
    requires forall k :: u1 + 8 <= k < d ==> IsDigit(s[k])
    requires d == |s| || !IsDigit(s[d])
    ensures Shape(s, i, h, LinkMatch(i, d, "", s[u0..u1], s[u1 + 8..d]))
  {
    var user := s[u0..u1];
    forall k | 0 <= k < |user|
      ensures user[k] != '/'
    {
      assert user[k] == s[u0 + k];
    }
  }

  /** `re.match(LINK_RE, s[i:])` for
      `(https|http)://(www.){0,1}(twitter|x)\.com/(?P<user_id>[^/]+)/status/(?P<post_id>\d+).*?`.
      The optional group is tried first ("www" and any character but a
      newline), then skipped; the trailing lazy `.*?` matches nothing. */
  function LinkAt(s: string, i: nat): (m: Option<LinkMatch>)
    requires i <= |s|
    ensures m.Some? ==> SchemeEnd(s, i).Some?
    ensures m.Some? ==> var a := SchemeEnd(s, i).value;
                        (WwwAt(s, a) && Shape(s, i, a + 4, m.value)) || Shape(s, i, a, m.value)
  {
    match SchemeEnd(s, i)
    case None => None
    case Some(a) =>
      if WwwAt(s, a) && From(s, i, a + 4).Some? then From(s, i, a + 4) else From(s, i, a)
  }

  /** The tweet link the adapter's own template writes, with or without
      `www.`, on either host. */
  function Link(www: bool, x: bool, user: string, post: string): string {
    "https://" + WwwPart(www) + HostPart(x) + user + "/status/" + post
  }

  function HostPart(x: bool): string {
    if x then "x.com/" else "twitter.com/"
  }

  /** Every text of the matched form after the host is matched, with exactly
      those groups. */
  lemma FromComplete(s: string, i: nat, h: nat, m: LinkMatch)
    requires Shape(s, i, h, m)
    ensures From(s, i, h) == Some(m)
  {
    var u0 := HostEnd(s, h).value;
    var u1 := u0 + |m.user|;
    var d := m.end;
    forall k | u0 <= k < u1
      ensures s[k] !in {'/'}
    {
      assert s[k] == m.user[k - u0];
    }
    forall k | u1 + 8 <= k < d
      ensures IsDigit(s[k])
    {
      assert s[k] == m.post[k - u1 - 8];
    }
    assert s[u1] == s[u1..u1 + 8][0] == '/';
    RunEndUnique(s, u0, u1, {'/'});
    DigitsEndUnique(s, u1 + 8, d);
  }

  /** The pieces of a written link, followed by anything. */
  lemma LinkPieces(pre: string, w: string, host: string, user: string, post: string, rest: string)
    ensures var s := pre + ("https://" + w + host + user + "/status/" + post) + rest;
            var a := |pre| + 8;
            var h := a + |w|;
            var u0 := h + |host|;
            var u1 := u0 + |user|;
            && LitAt(s, |pre|, "https://") && s[a..h] == w && LitAt(s, h, host)
            && s[u0..u1] == user && LitAt(s, u1, "/status/") && s[u1 + 8..u1 + 8 + |post|] == post
            && s[u1 + 8 + |post|..] == rest
  {
    var s := pre + ("https://" + w + host + user + "/status/" + post) + rest;
    assert s == pre + "https://" + w + host + user + "/status/" + post + rest;
  }

  /** A text with the scheme, the optional `www.` and a matched remainder is
      matched by the full pattern. */
  lemma LinkAtComplete(s: string, i: nat, www: bool, m: LinkMatch)
    requires LitAt(s, i, "https://")
    requires Shape(s, i, i + 8 + |WwwPart(www)|, m)
    requires www ==> LitAt(s, i + 8, "www.")
    requires !www ==> s[i + 8] != 'w'
    ensures LinkAt(s, i) == Some(m)
  {
    var a := i + 8;
    assert SchemeEnd(s, i) == Some(a);
    if www {
      WwwLit(s, a);
      FromComplete(s, i, a + 4, m);
    } else {
      NotWww(s, a);
      FromComplete(s, i, a, m);
    }
  }

  /** Round trip: a tweet link with a digits-only id, followed by the end of
      the text or by anything that is not a digit, parses back to its user
      and id, whichever host and whether or not `www.` is present. */
  lemma LinkRoundTrip(pre: string, www: bool, x: bool, user: string, post: string, rest: string)
    requires Paths.Plain(user)
    requires |post| > 0 && forall k :: 0 <= k < |post| ==> IsDigit(post[k])
    requires rest == [] || !IsDigit(rest[0])
    ensures LinkAt(pre + Link(www, x, user, post) + rest, |pre|)
         == Some(LinkMatch(|pre|, |pre| + |Link(www, x, user, post)|, "", user, post))
  {
    var s := pre + Link(www, x, user, post) + rest;
    var m := LinkMatch(|pre|, |pre| + |Link(www, x, user, post)|, "", user, post);
    LaidOut(pre, www, x, user, post, rest);
    ParsesBack(s, |pre|, www, x, m, rest);
  }

  /** A text laid out as a tweet link at `i`, followed by `rest`. */
  predicate Laid(s: string, i: nat, www: bool, x: bool, m: LinkMatch, rest: string) {
    var w := WwwPart(www);
    var h := i + 8 + |w|;
    var u0 := h + |HostPart(x)|;
    var u1 := u0 + |m.user|;
    && m.start == i && m.instance == "" && m.end == u1 + 8 + |m.post| && m.end + |rest| == |s|
    && LitAt(s, i, "https://") && s[i + 8..h] == w && LitAt(s, h, HostPart(x))
    && s[u0..u1] == m.user && LitAt(s, u1, "/status/") && s[u1 + 8..m.end] == m.post
    && s[m.end..] == rest
  }

  lemma LaidOut(pre: string, www: bool, x: bool, user: string, post: string, rest: string)
    ensures Laid(pre + Link(www, x, user, post) + rest, |pre|, www, x,
                 LinkMatch(|pre|, |pre| + |Link(www, x, user, post)|, "", user, post), rest)
  {
    LinkPieces(pre, WwwPart(www), HostPart(x), user, post, rest);
  }

  /** The round trip on a text given by its pieces. */
  lemma ParsesBack(s: string, i: nat, www: bool, x: bool, m: LinkMatch, rest: string)
    requires Laid(s, i, www, x, m, rest)
    requires Paths.Plain(m.user)
    requires |m.post| > 0 && forall k :: 0 <= k < |m.post| ==> IsDigit(m.post[k])
    requires rest == [] || !IsDigit(rest[0])
    ensures LinkAt(s, i) == Some(m)
  {
    LaidShape(s, i, www, x, m, rest);
    LaidScheme(s, i, www, x, m, rest);
    LinkAtComplete(s, i, www, m);
  }

  /** A text laid out as a tweet link has the matched form after its
      scheme and optional `www.`. */
  lemma LaidShape(s: string, i: nat, www: bool, x: bool, m: LinkMatch, rest: string)
    requires Laid(s, i, www, x, m, rest)
    requires Paths.Plain(m.user)
    requires |m.post| > 0 && forall k :: 0 <= k < |m.post| ==> IsDigit(m.post[k])
    requires rest == [] || !IsDigit(rest[0])
    ensures Shape(s, i, i + 8 + |WwwPart(www)|, m)
  {
    var h := i + 8 + |WwwPart(www)|;
    LaidHost(s, i, www, x, m, rest);
    if m.end < |s| {
      assert s[m.end] == s[m.end..][0] == rest[0];
    }
    ShapeOf(s, i, h, h + |HostPart(x)|, m);
  }

  lemma ShapeOf(s: string, i: nat, h: nat, u0: nat, m: LinkMatch)
    requires HostEnd(s, h) == Some(u0)
    requires m.start == i && m.instance == "" && u0 + |m.user| + 8 + |m.post| == m.end <= |s|
    requires s[u0..u0 + |m.user|] == m.user && LitAt(s, u0 + |m.user|, "/status/") && s[u0 + |m.user| + 8..m.end] == m.post
    requires Paths.Plain(m.user)
    requires |m.post| > 0 && forall k :: 0 <= k < |m.post| ==> IsDigit(m.post[k])
    requires m.end == |s| || !IsDigit(s[m.end])
    ensures Shape(s, i, h, m)
  {
  }

  lemma LaidScheme(s: string, i: nat, www: bool, x: bool, m: LinkMatch, rest: string)
    requires Laid(s, i, www, x, m, rest)
    ensures LitAt(s, i, "https://") && (www ==> LitAt(s, i + 8, "www.")) && (!www ==> s[i + 8] != 'w')
  {
    LaidHost(s, i, www, x, m, rest);
  }

  lemma LaidHost(s: string, i: nat, www: bool, x: bool, m: LinkMatch, rest: string)
    requires Laid(s, i, www, x, m, rest)
    ensures var h := i + 8 + |WwwPart(www)|;
            HostEnd(s, h) == Some(h + |HostPart(x)|) && s[h] == HostPart(x)[0]
  {
    var host := HostPart(x);
    var h := i + 8 + |WwwPart(www)|;
    assert s[h] == s[h..h + |host|][0] == host[0];
    assert h + 12 <= |s| ==> s[h..h + 12][0] == s[h];
  }

  // ------------------------------------------------------------------ media

  /** The index of the first video variant whose URL's last segment does not
      contain ".m3u8" (`next(filter(...))`); `StopIteration` when there is
      none. */
  function FirstPlain(vs: seq<Json>): (r: Outcome<nat>)
    ensures r.Ok? ==> r.value < |vs| && Plain(vs[r.value]) == Ok(true)
    ensures r.Ok? ==> forall k :: 0 <= k < r.value ==> Plain(vs[k]) == Ok(false)
    ensures (forall k :: 0 <= k < |vs| ==> Plain(vs[k]) == Ok(false)) ==> r == Err(StopIteration)
    decreases |vs|
  {
    if |vs| == 0 then Err(StopIteration)
    else
      var p :- Plain(vs[0]);
      if p then Ok(0)
      else
        var rest := FirstPlain(vs[1..]);
        TailAllPlain(vs);
        if rest.Err? then Err(rest.error)
        else
          FirstPlainStep(vs, rest.value);
          Ok(rest.value + 1)
  }

  lemma TailAllPlain(vs: seq<Json>)
    requires |vs| > 0
    ensures (forall k :: 0 <= k < |vs| ==> Plain(vs[k]) == Ok(false))
            ==> forall k :: 0 <= k < |vs[1..]| ==> Plain(vs[1..][k]) == Ok(false)
  {
    assert forall k :: 0 <= k < |vs[1..]| ==> vs[1..][k] == vs[k + 1];
  }

  lemma FirstPlainStep(vs: seq<Json>, j: nat)
    requires |vs| > 0 && Plain(vs[0]) == Ok(false)
    requires j < |vs[1..]| && Plain(vs[1..][j]) == Ok(true)
    requires forall k :: 0 <= k < j ==> Plain(vs[1..][k]) == Ok(false)
    ensures j + 1 < |vs| && Plain(vs[j + 1]) == Ok(true)
    ensures forall k :: 0 <= k < j + 1 ==> Plain(vs[k]) == Ok(false)
  {
    FirstStep(vs, Plain, j);
  }

  /** The first hit in the tail, shifted by one, is the first hit in the
      whole sequence when the head misses. */
  lemma FirstStep<T>(vs: seq<T>, f: T -> Outcome<bool>, j: nat)
    requires |vs| > 0 && f(vs[0]) == Ok(false)
    requires j < |vs[1..]| && f(vs[1..][j]) == Ok(true)
    requires forall k :: 0 <= k < j ==> f(vs[1..][k]) == Ok(false)
    ensures j + 1 < |vs| && f(vs[j + 1]) == Ok(true)
    ensures forall k :: 0 <= k < j + 1 ==> f(vs[k]) == Ok(false)
  {
    assert vs[1..][j] == vs[j + 1];
    forall k | 0 <= k < j + 1
      ensures f(vs[k]) == Ok(false)
    {
      if k > 0 {
        assert vs[1..][k - 1] == vs[k];
      }
    }
  }

  /** The filter's test on one variant: its `url`'s last '/'-segment lacks
      ".m3u8". */
  function Plain(v: Json): Outcome<bool> {
    var u :- Index(v, "url");
    var s :- AsStr(u);
    Ok(!Text.Contains(Paths.Tail(s), ".m3u8"))
  }

  /** `html.escape` of a value: only text has the `replace` method it calls. */
  function Escape(j: Json): (r: Outcome<Json>)
    ensures r.Ok? <==> j.JStr?
    ensures r.Ok? ==> r.value == JStr(Text.HtmlEscape(j.s))
  {
    if j.JStr? then Ok(JStr(Text.HtmlEscape(j.s))) else Err(AttributeError)
  }

  /** `media_url_https or media_url`. */
  function Preferred(m: Json): (r: Outcome<Json>)
    ensures r.Ok? <==> m.JObj?
  {
    if !m.JObj? then Err(AttributeError)
    else Ok(Or(Get(m, "media_url_https").value, Get(m, "media_url").value))
  }

  /** `getRealSourceUrl`: a photo's escaped preferred URL, an HLS stream's
      preferred URL as it is, the escaped URL of the first non-playlist
      variant of a video or animated GIF; any other type raises
      `NotImplementedError`. */
  function RealSourceUrl(m: Json): (r: Outcome<Json>)
    ensures Index(m, "type") == Ok(JStr("photo")) ==> r == Escape(Preferred(m).value)
    ensures Index(m, "type") == Ok(JStr("hls")) ==> r == Preferred(m)
    ensures Index(m, "type").Ok? && Index(m, "type").value !in {JStr("photo"), JStr("hls"), JStr("video"), JStr("animated_gif")}
            ==> r == Err(NotImplementedError)
    ensures r.Ok? && Index(m, "type") in {Ok(JStr("video")), Ok(JStr("animated_gif"))}
            ==> exists vs, k :: Variants(m) == Ok(vs) && FirstPlain(vs) == Ok(k) && Index(vs[k], "url").Ok?
                                && r == Escape(Index(vs[k], "url").value)
  {
    var t :- Index(m, "type");
    if t == JStr("photo") then
      Escape(Preferred(m).value)
    else if t == JStr("hls") then Preferred(m)
    else if t == JStr("video") || t == JStr("animated_gif") then
      var vs :- Variants(m);
      var k :- FirstPlain(vs);
      Escape(Index(vs[k], "url").value)
    else Err(NotImplementedError)
  }

  /** `media_entry['video_info']['variants']`, iterated. */
  function Variants(m: Json): Outcome<seq<Json>> {
    var info :- Index(m, "video_info");
    var vs :- Index(info, "variants");
    Iterate(vs)
  }

  /** A video whose every variant is an HLS playlist has no downloadable
      source. */
  lemma OnlyPlaylists(m: Json, vs: seq<Json>)
    requires Index(m, "type") == Ok(JStr("video"))
    requires Variants(m) == Ok(vs)
    requires forall k :: 0 <= k < |vs| ==> Plain(vs[k]) == Ok(false)
    ensures RealSourceUrl(m) == Err(StopIteration)
  {
  }

  /** One entry of `entities.media` as `getPostMedia` yields it: its source
      named by the last path segment, as a yt-dlp job for an HLS stream and a
      URL otherwise. A `StopIteration` escaping into the generator becomes
      `RuntimeError` (PEP 479). */
  function MediaItem(m: Json): (r: Outcome<(string, Src)>)
    ensures r.Ok? ==> r.value.0 == Paths.Tail(r.value.1.url)
    ensures r.Ok? ==> (r.value.1.Program? <==> Index(m, "type") == Ok(JStr("hls")))
    ensures RealSourceUrl(m) == Err(StopIteration) ==> r == Err(RuntimeError)
  {
    match RealSourceUrl(m)
    case Err(e) => Err(if e == StopIteration then RuntimeError else e)
    case Ok(srcJ) =>
      var src :- PathArg(srcJ);
      var t := Index(m, "type").value;
      if t == JStr("hls") then Ok((Paths.Tail(src), Program(src))) else Ok((Paths.Tail(src), Url(src)))
  }

  /** `json['user']['profile_image_url_https']`, named by its last segment. */
  function Avatar(json: Json): (r: Outcome<(string, Src)>)
    ensures r.Ok? ==> r.value.1.Url? && r.value.0 == Paths.Tail(r.value.1.url)
  {
    var user :- Index(json, "user");
    var u :- Index(user, "profile_image_url_https");
    var s :- AsStr(u);
    Ok((Text.AfterLast(s, '/'), Url(s)))
  }

  /** `json["entities"].get("media", [])`, iterated. */
  function MediaList(json: Json): Outcome<seq<Json>> {
    var ents :- Index(json, "entities");
    var l :- GetOr(ents, "media", JArr([]));
    Iterate(l)
  }

  /** `getPostMedia`: every media entity, then the author's avatar. */
  function Media(json: Json): (y: Yield<(string, Src)>)
    ensures MediaList(json).Err? ==> y == Raise(MediaList(json).error)
    ensures MediaList(json).Ok? ==> y == Collect(MediaList(json).value, MediaItem).Then(AvatarYield(json))
  {
    match MediaList(json)
    case Err(e) => Raise(e)
    case Ok(xs) => Collect(xs, MediaItem).Then(AvatarYield(json))
  }

  function AvatarYield(json: Json): (y: Yield<(string, Src)>)
    ensures y.stop.None? ==> Avatar(json).Ok? && y.items == [Avatar(json).value]
  {
    match Avatar(json)
    case Ok(v) => Yield([v], None)
    case Err(e) => Raise(e)
  }

  /** When the generator runs to the end, it yields one item per media entity
      and then the avatar; every item is named by the last segment of its
      source. */
  lemma MediaEndsWithAvatar(json: Json)
    requires Media(json).stop.None?
    ensures var y := Media(json);
            && MediaList(json).Ok? && |y.items| == |MediaList(json).value| + 1
            && Avatar(json) == Ok(y.items[|y.items| - 1]) && y.items[|y.items| - 1].1.Url?
            && (forall k :: 0 <= k < |y.items| ==> y.items[k].0 == Paths.Tail(y.items[k].1.url))
  {
    var xs := MediaList(json).value;
    var c := Collect(xs, MediaItem);
    assert c.stop.None?;
    var y := Media(json);
    assert y.items == c.items + [Avatar(json).value];
    forall k | 0 <= k < |y.items|
      ensures y.items[k].0 == Paths.Tail(y.items[k].1.url)
    {
      if k < |c.items| {
        assert y.items[k] == c.items[k];
        assert MediaItem(xs[k]) == Ok(c.items[k]);
      }
    }
  }

  /** An HLS entity becomes a yt-dlp job and any other entity a URL. */
  lemma MediaKinds(json: Json, k: int)
    requires MediaList(json).Ok? && 0 <= k < |MediaList(json).value|
    requires 0 <= k < |Media(json).items|
    ensures Media(json).items[k].1.Program? <==> Index(MediaList(json).value[k], "type") == Ok(JStr("hls"))
  {
    var xs := MediaList(json).value;
    var c := Collect(xs, MediaItem);
    assert k < |c.items| by {
      if c.stop.Some? {
        assert Media(json) == c;
      }
    }
    assert Media(json).items[k] == c.items[k];
    assert MediaItem(xs[k]) == Ok(c.items[k]);
  }

  /** A video with only playlist variants stops the generator with
      `RuntimeError`, after the entities before it. */
  lemma PlaylistStopsMedia(json: Json, k: int)
    requires MediaList(json).Ok? && 0 <= k < |MediaList(json).value|
    requires forall j :: 0 <= j < k ==> MediaItem(MediaList(json).value[j]).Ok?
    requires RealSourceUrl(MediaList(json).value[k]) == Err(StopIteration)
    ensures Media(json).stop == Some(RuntimeError) && |Media(json).items| == k
  {
    var xs := MediaList(json).value;
    CollectStopsAt(xs, MediaItem, k);
  }

  // -------------------------------------------------------- related tweets

  /** `getRelatedPosts`: the tweet replied to, when
      `in_reply_to_status_id_str` is set, then the quoted tweet, when there
      is one. Both are base `PostReference`s. */
  function Related(json: Json): (y: Yield<Ref>)
    ensures |y.items| <= 2
    ensures forall k :: 0 <= k < |y.items| ==> y.items[k].cls == Base && y.items[k].instance.None?
  {
    match Get(json, "in_reply_to_status_id_str")
    case Err(e) => Raise(e)
    case Ok(parent) =>
      var first: Yield<Ref> :=
        if !Truthy(parent) then Yield([], None)
        else match Index(json, "in_reply_to_screen_name")
          case Err(e) => Raise(e)
          case Ok(name) => Yield([IdRef(name, parent)], None);
      first.Then(Quoted(json))
  }

  /** `PostReference(name, id)` for JSON values: the id keeps whether it is
      a number. */
  function IdRef(name: Json, id: Json): (r: Ref)
    ensures r.cls == Base && r.instance.None? && r.userId == Ident(name)
    ensures r.postNum <==> id.JNum?
    ensures id.JStr? ==> r.postId == id.s
    ensures id.JNum? && id.n >= 0 ==> r.postId == NatDigits(id.n)
  {
    Ref(Base, None, Ident(name), Display(id), id.JNum?)
  }

  function Quoted(json: Json): (y: Yield<Ref>)
    ensures |y.items| <= 1
    ensures forall k :: 0 <= k < |y.items| ==> y.items[k].cls == Base && y.items[k].instance.None?
  {
    match Get(json, "quoted_status")
    case Err(e) => Raise(e)
    case Ok(q) =>
      if !Truthy(q) then Yield([], None)
      else
        var r := (var user :- Index(q, "user");
                  var name :- Index(user, "screen_name");
                  var id :- Index(q, "id");
                  Ok(IdRef(name, id)));
        match r
        case Err(e) => Raise(e)
        case Ok(ref) => Yield([ref], None)
  }

  /** A reply that quotes a tweet yields the parent first, its id a `str`,
      and the quoted tweet second, its id the API's `int`. */
  lemma ReplyThenQuote(json: Json, parent: string, pname: string, q: Json, qname: string, qid: nat)
    requires json.JObj? && "in_reply_to_status_id_str" in json.fields && "in_reply_to_screen_name" in json.fields
    requires json.fields["in_reply_to_status_id_str"] == JStr(parent) && |parent| > 0
    requires json.fields["in_reply_to_screen_name"] == JStr(pname)
    requires "quoted_status" in json.fields && json.fields["quoted_status"] == q
    requires Index(q, "user").Ok? && Index(Index(q, "user").value, "screen_name") == Ok(JStr(qname))
    requires Index(q, "id") == Ok(JNum(qid))
    ensures Related(json) == Yield([BaseRef(Some(pname), parent), Ref(Base, None, Some(qname), NatDigits(qid), true)], None)
  {
    assert Truthy(q) by {
      assert "user" in q.fields;
    }
  }

  /** A reply to tweet "2" of `b` that also quotes tweet 2 of `b`: both
      references read "2", yet they differ, because the quoted id is an
      `int` and the parent's a `str`. */
  lemma IntAndStrIdsDiffer()
    ensures var q := JObj(map["user" := JObj(map["screen_name" := JStr("b")]), "id" := JNum(2)]);
            var json := JObj(map["in_reply_to_status_id_str" := JStr("2"), "in_reply_to_screen_name" := JStr("b"),
                                 "quoted_status" := q]);
            var y := Related(json);
            && |y.items| == 2 && y.items[0].postId == y.items[1].postId == "2"
            && y.items[0] != y.items[1]
  {
    var q := JObj(map["user" := JObj(map["screen_name" := JStr("b")]), "id" := JNum(2)]);
    var json := JObj(map["in_reply_to_status_id_str" := JStr("2"), "in_reply_to_screen_name" := JStr("b"),
                         "quoted_status" := q]);
    assert NatDigits(2) == "2";
    ReplyThenQuote(json, "2", "b", q, "b", 2);
  }

  // --------------------------------------------------------------- getters

  /** `JSON_GETTERS`: the cache, gallery-dl under a 10 second timeout, the
      Internet Archive scraper, then gallery-dl without a timeout. */
  lemma GetterOrder()
    ensures Getters(Social.Twitter) == [Cache, GalleryDlTimed, InternetArchive, GalleryDl]
  {
  }

  // --------------------------------------------------------- template filters

  /** `entities.update(extended_entities)`: the merged dict, the extended
      entities winning on a shared key. */
  function Merge(ents: Json, ext: Json): (r: Outcome<Json>)
    ensures r.Ok? <==> ents.JObj? && ext.JObj?
    ensures r.Ok? ==> r.value.JObj?
                      && (forall k :: k in r.value.fields <==> k in ents.fields || k in ext.fields)
                      && (forall k :: k in ext.fields ==> r.value.fields[k] == ext.fields[k])
                      && (forall k :: k in ents.fields && k !in ext.fields ==> r.value.fields[k] == ents.fields[k])
  {
    if !ents.JObj? then Err(AttributeError)
    else if !ext.JObj? then Err(TypeError)
    else Ok(JObj(ents.fields + ext.fields))
  }

  /** The anchor `tw_stripents` puts in place of a shortened link. */
  function Anchor(src: string, display: string): string {
    "<a href='" + src + "' target='_blank'>" + display + "</a>"
  }

  /** A value used as the first argument of `str.replace`. */
  function Pattern(j: Json): (r: Outcome<string>)
    ensures r.Ok? <==> j.JStr?
    ensures r.Ok? ==> r.value == j.s
  {
    if j.JStr? then Ok(j.s) else Err(TypeError)
  }

  /** The url entities in order: each one with a truthy `url` has that text
      replaced by an anchor to its escaped `expanded_url` (or source URL),
      labelled with its escaped `display_url`. */
  function LinkUrls(text: string, es: seq<Json>): (r: Outcome<string>)
    ensures (forall k :: 0 <= k < |es| ==> Get(es[k], "url") == Ok(JNull)) ==> r == Ok(text)
    decreases |es|
  {
    if |es| == 0 then Ok(text)
    else
      var find :- Get(es[0], "url");
      if !Truthy(find) then LinkUrls(text, es[1..])
      else
        var ex := Get(es[0], "expanded_url").value;
        var srcJ :- if Truthy(ex) then Ok(ex) else RealSourceUrl(es[0]);
        var src :- Escape(srcJ);
        var disp :- Index(es[0], "display_url");
        var d :- Escape(disp);
        var f :- Pattern(find);
        LinkUrls(Text.Replace(text, f, Anchor(src.s, d.s)), es[1..])
  }

  /** The media entities in order: each truthy `url` is deleted from the text. */
  function DropMedia(text: string, es: seq<Json>): (r: Outcome<string>)
    ensures (forall k :: 0 <= k < |es| ==> Get(es[k], "url") == Ok(JNull)) ==> r == Ok(text)
    decreases |es|
  {
    if |es| == 0 then Ok(text)
    else
      var find :- Get(es[0], "url");
      if !Truthy(find) then DropMedia(text, es[1..])
      else
        var f :- Pattern(find);
        DropMedia(Text.Replace(text, f, ""), es[1..])
  }

  /** `tw_stripents`: shortened links become anchors, then media links are
      deleted. */
  function Stripents(text: string, ents: Json, ext: Json): (r: Outcome<string>)
    ensures Merge(ents, ext).Err? ==> r == Err(Merge(ents, ext).error)
  {
    var merged :- Merge(ents, ext);
    var us :- Iterate(GetOr(merged, "urls", JArr([])).value);
    var t :- LinkUrls(text, us);
    var ms :- Iterate(GetOr(merged, "media", JArr([])).value);
    DropMedia(t, ms)
  }

  /** A text that contains none of the entity URLs comes back unchanged. */
  lemma {:induction false} LinkUrlsAbsent(text: string, es: seq<Json>)
    requires forall k :: 0 <= k < |es| ==> LinkUrls(text, es[k..]).Ok?
    requires forall k :: (0 <= k < |es| && Get(es[k], "url").Ok? && Truthy(Get(es[k], "url").value))
                         ==> Get(es[k], "url").value.JStr? && !Text.Contains(text, Get(es[k], "url").value.s)
    ensures LinkUrls(text, es) == Ok(text)
    decreases |es|
  {
    if |es| > 0 {
      assert LinkUrls(text, es[0..]).Ok?;
      assert es[0..] == es;
      forall k | 0 <= k < |es[1..]|
        ensures LinkUrls(text, es[1..][k..]).Ok?
      {
        assert es[1..][k..] == es[k + 1..];
      }
      var find := Get(es[0], "url").value;
      if Truthy(find) {
        Text.ReplaceAbsent(text, find.s, Anchor(Escape(if Truthy(Get(es[0], "expanded_url").value) then Get(es[0], "expanded_url").value else RealSourceUrl(es[0]).value).value.s, Escape(Index(es[0], "display_url").value).value.s));
      }
      LinkUrlsAbsent(text, es[1..]);
    }
  }

  /** One media fragment of `tw_entities`. */
  datatype Frag = PhotoFrag(href: string, src: string, count: nat) | VideoFrag(src: string) | GifFrag(src: string)

  /** The HTML of a fragment (the photo's `onerror` handler is abbreviated to
      its archive fallback). */
  function FragHtml(f: Frag): string {
    match f
    case PhotoFrag(href, src, n) =>
      "<a href=\"" + href + "\" target=\"_blank\">\n    <img class=\"img count" + Display(JNum(n)) + "\" src=\"" + src
      + "\"\n         onerror=\"(async () => {this.onerror=null;this.src=`https://web.archive.org/web/0/${this.src}`;})();\"\n    ></img>\n</a>"
    case VideoFrag(src) => "<video src=\"" + src + "\" controls=\"true\"></video>"
    case GifFrag(src) => "<video src=\"" + src + "\" loop=\"true\" playsinline=\"true\" controls=\"true\" preload=\"auto\"></video>"
  }

  /** One fragment per media entity, in order; a photo carries the number of
      media entities; any other type raises. */
  function Frags(es: seq<Json>, n: nat): (r: Outcome<seq<Frag>>)
    ensures r.Ok? ==> |r.value| == |es|
    ensures r.Ok? ==> forall k :: 0 <= k < |es| ==>
                        (r.value[k].PhotoFrag? <==> Index(es[k], "type") == Ok(JStr("photo")))
                        && (r.value[k].PhotoFrag? ==> r.value[k].count == n)
                        && (r.value[k].GifFrag? <==> Index(es[k], "type") == Ok(JStr("animated_gif")))
    ensures r.Ok? ==> forall k :: 0 <= k < |es| ==>
                        (Index(es[k], "type").Ok?
                         && Index(es[k], "type").value in {JStr("photo"), JStr("video"), JStr("hls"), JStr("animated_gif")})
    decreases |es|
  {
    if |es| == 0 then Ok([])
    else
      var e := es[0];
      var t :- Index(e, "type");
      var f :- if t == JStr("photo") then
                 var ex := Get(e, "expanded_url").value;
                 var href :- if Truthy(ex) then Ok(ex) else RealSourceUrl(e);
                 var src :- RealSourceUrl(e);
                 Ok(PhotoFrag(Display(href), Display(src), n))
               else if t == JStr("video") || t == JStr("hls") then
                 var src :- RealSourceUrl(e);
                 Ok(VideoFrag(Display(src)))
               else if t == JStr("animated_gif") then
                 var src :- RealSourceUrl(e);
                 Ok(GifFrag(Display(src)))
               else Err(NotImplementedError);
      var rest :- Frags(es[1..], n);
      Ok([f] + rest)
  }

  function ConcatHtml(fs: seq<Frag>): string
    decreases |fs|
  {
    if |fs| == 0 then "" else FragHtml(fs[0]) + ConcatHtml(fs[1..])
  }

  /** `tw_entities`: the fragments of all media entities, concatenated. */
  function EntitiesFrags(ents: Json, ext: Json): (r: Outcome<seq<Frag>>)
    ensures r.Ok? ==> exists xs :: Merge(ents, ext).Ok? && GetOr(Merge(ents, ext).value, "media", JArr([])).Ok?
                                   && Iterate(GetOr(Merge(ents, ext).value, "media", JArr([])).value) == Ok(xs)
                                   && |r.value| == |xs|
                                   && forall k :: 0 <= k < |xs| && r.value[k].PhotoFrag? ==> r.value[k].count == |xs|
  {
    var merged :- Merge(ents, ext);
    var xs :- Iterate(GetOr(merged, "media", JArr([])).value);
    Frags(xs, |xs|)
  }

  function Entities(ents: Json, ext: Json): Outcome<string> {
    var fs :- EntitiesFrags(ents, ext);
    Ok(ConcatHtml(fs))
  }

  /** An entity of a type the filter does not know makes it raise. */
  lemma UnknownEntityRaises(es: seq<Json>, n: nat, k: int)
    requires 0 <= k < |es| && Index(es[k], "type").Ok?
    requires Index(es[k], "type").value !in {JStr("photo"), JStr("video"), JStr("hls"), JStr("animated_gif")}
    ensures Frags(es, n).Err?
  {
  }

  /** What `_tw_avatar_src` returns: False, a data URL, or the remote URL. */
  datatype AvatarOut = NoAvatar | DataUrl(url: string) | Remote(url: string)

  /** `os.path.splitext(name)[1]`: from the last '.', unless every character
      before that '.' is also a '.'. */
  function Ext(name: string): (e: string)
    ensures |e| <= |name| && e == name[|name| - |e|..]
    ensures |e| > 0 ==> e[0] == '.' && '.' !in e[1..]
    ensures e == "" <==> forall j :: 0 <= j < |name| && name[j] != '.' ==> '.' !in name[j + 1..]
  {
    var tail := Text.AfterLast(name, '.');
    if |tail| == |name| then ""
    else
      var k := |name| - |tail| - 1;
      if forall j :: 0 <= j < k ==> name[j] == '.' then "" else name[k..]
  }

  /** Where the filter looks for a saved avatar. */
  function AvatarPath(root: string, screen: Json, id: string): string {
    root + "tweets/" + Display(screen) + "/savatar-" + id
  }

  /** `_tw_avatar_src(url, screen_name)`: False when the URL is not text (the
      `AttributeError` of `split` is caught); the file
      `tweets/<screen_name>/savatar-<last segment>` as a base64 data URL
      whose subtype is its extension with the dot; else the URL itself.
      `isFile` and `base64` stand for the disk. */
  function AvatarSrcAt(root: string, url: Json, screen: Json, isFile: string -> bool, base64: string -> string): (r: AvatarOut)
    ensures !url.JStr? <==> r == NoAvatar
    ensures url.JStr? && !isFile(AvatarPath(root, screen, Text.AfterLast(url.s, '/'))) ==> r == Remote(url.s)
    ensures url.JStr? && isFile(AvatarPath(root, screen, Text.AfterLast(url.s, '/')))
            ==> var id := Text.AfterLast(url.s, '/');
                r == DataUrl("data:image/" + Ext(id) + ";base64," + base64(AvatarPath(root, screen, id)))
  {
    if !url.JStr? then NoAvatar
    else
      var id := Text.AfterLast(url.s, '/');
      var path := AvatarPath(root, screen, id);
      if isFile(path) then DataUrl("data:image/" + Ext(id) + ";base64," + base64(path)) else Remote(url.s)
  }

  /** `_tw_avatar_src` as written: the path has no root directory. */
  function AvatarSrc(url: Json, screen: Json, isFile: string -> bool, base64: string -> string): AvatarOut {
    AvatarSrcAt("", url, screen, isFile, base64)
  }

  /** The lookup under the directory the engine saves avatars in. */
  function AvatarSrcSaved(url: Json, screen: Json, isFile: string -> bool, base64: string -> string): AvatarOut {
    AvatarSrcAt("socialposts/", url, screen, isFile, base64)
  }

  /** The `tw_avatar_src(user)` filter: `user.get(...)` and
      `user['screen_name']` raise on a non-dict and a missing name. */
  function AvatarFilter(user: Json, corrected: bool, isFile: string -> bool, base64: string -> string): (r: Outcome<AvatarOut>)
    ensures !user.JObj? ==> r == Err(AttributeError)
    ensures user.JObj? && "screen_name" !in user.fields ==> r == Err(KeyError("screen_name"))
    ensures r.Ok? ==> var url := Get(user, "profile_image_url_https").value;
                      r.value == (if corrected then AvatarSrcSaved else AvatarSrc)(url, user.fields["screen_name"], isFile, base64)
  {
    var url :- Get(user, "profile_image_url_https");
    var screen :- Index(user, "screen_name");
    Ok(if corrected then AvatarSrcSaved(url, screen, isFile, base64) else AvatarSrc(url, screen, isFile, base64))
  }

  /** Where the engine saves the avatar named `id` of `user`'s tweets: the
      reference `(user, "avatar")` with the media id. */
  function SavedAvatar(user: string, id: string): Outcome<string> {
    Store.BasePath(Social.Twitter, BaseRef(Some(user), "avatar"), id)
  }

  lemma SavedAvatarShape(user: string, id: string)
    requires Paths.Plain(user) && |id| > 0 && '?' !in id
    ensures SavedAvatar(user, id) == Ok("socialposts/tweets/" + user + "/savatar-" + id)
  {
    Store.BasePathShape(Social.Twitter, user, "avatar", id);
    AvatarName(id);
    SavedAvatarPath(Social.Twitter, user, id);
  }

  lemma AvatarName(id: string)
    requires |id| > 0 && '?' !in id
    ensures Store.FileName("avatar", id, true) == "savatar-" + id
  {
    var full := "s" + "avatar" + "-" + id;
    assert forall k :: 0 <= k < |full| ==> full[k] != '?';
    assert full == "savatar-" + id;
  }

  lemma SavedAvatarPath(a: Adapter, user: string, id: string)
    requires a == Social.Twitter
    ensures "socialposts/" + a.Noun() + "s/" + user + "/" + ("savatar-" + id)
         == "socialposts/tweets/" + user + "/savatar-" + id
  {
    assert a.Noun() == "tweet";
    assert "socialposts/" + "tweet" + "s/" == "socialposts/tweets/";
  }

  /** The filter as written never finds an avatar the engine saved: with
      exactly that file on disk it still returns the remote URL. */
  lemma AvatarLookupMisses(user: string, url: string, base64: string -> string)
    requires Paths.Plain(user)
    requires |Text.AfterLast(url, '/')| > 0 && '?' !in Text.AfterLast(url, '/')
    ensures var saved := SavedAvatar(user, Text.AfterLast(url, '/'));
            saved.Ok? && AvatarSrc(JStr(url), JStr(user), p => p == saved.value, base64) == Remote(url)
  {
    var id := Text.AfterLast(url, '/');
    SavedAvatarShape(user, id);
    var looked := "tweets/" + user + "/savatar-" + id;
    assert |looked| < |SavedAvatar(user, id).value|;
  }

  lemma SavedPathJoins(user: string, id: string)
    ensures AvatarPath("socialposts/", JStr(user), id) == "socialposts/tweets/" + user + "/savatar-" + id
  {
    assert "socialposts/" + "tweets/" == "socialposts/tweets/";
  }

  /** Looking under the engine's directory finds the saved avatar and inlines
      it. */
  lemma AvatarLookupFinds(user: string, url: string, base64: string -> string)
    requires Paths.Plain(user)
    requires |Text.AfterLast(url, '/')| > 0 && '?' !in Text.AfterLast(url, '/')
    ensures var saved := SavedAvatar(user, Text.AfterLast(url, '/'));
            var id := Text.AfterLast(url, '/');
            saved.Ok? && AvatarSrcSaved(JStr(url), JStr(user), p => p == saved.value, base64)
                         == DataUrl("data:image/" + Ext(id) + ";base64," + base64(saved.value))
  {
    var id := Text.AfterLast(url, '/');
    SavedAvatarShape(user, id);
    var saved := SavedAvatar(user, id).value;
    var isFile := p => p == saved;
    var path := AvatarPath("socialposts/", JStr(user), id);
    SavedPathJoins(user, id);
    assert path == saved;
    assert isFile(path);
    assert AvatarSrcSaved(JStr(url), JStr(user), isFile, base64) == DataUrl("data:image/" + Ext(id) + ";base64," + base64(path));
  }
}
