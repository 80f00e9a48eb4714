/** The Mastodon adapter (`PermaMastodon`), in the current plugin
    (perma_social/perma_mastodon.py) and the earlier one (`legacy`,
    perma_social.py). */
module Mastodon {
  import opened Wrappers
  import opened Json
  import opened Social
  import opened Links
  import Text
  import Paths
  import Store

  // ---------------------------------------------------------------- LINK_RE

  /** What a successful `LINK_RE` match at `i` consists of:
      `http(s)://<instance>/@<user>/<post>`, where instance and user are
      non-empty and free of '/', the post id is a non-empty run free of ' '
      and ')' that the match takes as far as it goes, and (in the current
      plugin) the post id does not start with "statuses/". */
  predicate Shape(s: string, i: nat, modern: bool, m: LinkMatch) {
    SchemeEnd(s, i).Some?
    && var a := SchemeEnd(s, i).value;
    var b := a + |m.instance|;
    var c := b + 2 + |m.user|;
    m.start == i
    && c + 1 + |m.post| == m.end <= |s|
    && s[a..b] == m.instance && LitAt(s, b, "/@")
    && s[b + 2..c] == m.user && LitAt(s, c, "/")
    && s[c + 1..m.end] == m.post
    && Paths.Plain(m.instance) && Paths.Plain(m.user)
    && |m.post| > 0 && ' ' !in m.post && ')' !in m.post
    && (modern ==> !Text.StartsWith(m.post, "statuses/"))
    && (m.end == |s| || s[m.end] == ' ' || s[m.end] == ')')
  }

  /** `re.match(LINK_RE, s[i:])`: the current pattern
      `(https|http)://(?P<instance>[^/]+)/@(?P<user_id>[^/]+)/(?!statuses/)(?P<post_id>[^ )]+)`,
      or the earlier one without the `(?!statuses/)` lookahead. Every group
      is a greedy run that must be followed by a fixed character, so no
      backtracking can produce a different match. */
  function LinkAt(s: string, i: nat, modern: bool): (m: Option<LinkMatch>)
    requires i <= |s|
    ensures m.Some? ==> Shape(s, i, modern, m.value)
  {
    match SchemeEnd(s, i)
    case None => None
    case Some(a) =>
      var b := RunEnd(s, a, {'/'});
      if b == a || !LitAt(s, b, "/@") then None
      else
        var c := RunEnd(s, b + 2, {'/'});
        if c == b + 2 || !LitAt(s, c, "/") then None
        else if modern && LitAt(s, c + 1, "statuses/") then None
        else
          var d := RunEnd(s, c + 1, {' ', ')'});
          if d == c + 1 then None
          else
            ShapeIntro(s, i, modern, a, b, c, d);
            Some(LinkMatch(i, d, s[a..b], s[b + 2..c], s[c + 1..d]))
  }

  /** The scan that `LinkAt` performs establishes `Shape`. */
  lemma ShapeIntro(s: string, i: nat, modern: bool, a: nat, b: nat, c: nat, d: nat)
    requires SchemeEnd(s, i) == Some(a)
    requires a < b && b + 2 < c && c + 1 < d <= |s|
    requires LitAt(s, b, "/@") && LitAt(s, c, "/")
    requires forall k :: a <= k < b ==> s[k] != '/'
    requires forall k :: b + 2 <= k < c ==> s[k] != '/'
    requires forall k :: c + 1 <= k < d ==> s[k] != ' ' && s[k] != ')'
    requires d == |s| || s[d] == ' ' || s[d] == ')'
    requires modern ==> !LitAt(s, c + 1, "statuses/")
    ensures Shape(s, i, modern, LinkMatch(i, d, s[a..b], s[b + 2..c], s[c + 1..d]))
  {
    StatusesPrefix(s, c + 1, d);
    Free(s, a, b, '/');
    Free(s, b + 2, c, '/');
    Free(s, c + 1, d, ' ');
    Free(s, c + 1, d, ')');
  }

  /** A character absent from every position of a range is absent from the
      slice. */
  lemma Free(s: string, i: nat, j: nat, x: char)
    requires i <= j <= |s|
    requires forall k :: i <= k < j ==> s[k] != x
    ensures x !in s[i..j]
  {
    forall k | 0 <= k < j - i
      ensures s[i..j][k] != x
    {
      assert s[i..j][k] == s[i + k];
    }
  }

  /** A post id that starts with "statuses/" puts that literal in the text. */
  lemma StatusesPrefix(s: string, c: nat, d: nat)
    requires c <= d <= |s|
    ensures Text.StartsWith(s[c..d], "statuses/") ==> LitAt(s, c, "statuses/")
  {
    if Text.StartsWith(s[c..d], "statuses/") {
      assert s[c..c + 9] == s[c..d][..9];
    }
  }

  /** Every text of the matched form is matched, with exactly those groups:
      together with `LinkAt`'s postcondition, `LinkAt(s, i) == Some(m)` holds
      exactly when `Shape(s, i, modern, m)` does. */
  lemma LinkAtComplete(s: string, i: nat, modern: bool, m: LinkMatch)
    requires i <= |s| && Shape(s, i, modern, m)
    ensures LinkAt(s, i, modern) == Some(m)
  {
    var a := SchemeEnd(s, i).value;
    var b := a + |m.instance|;
    var c := b + 2 + |m.user|;
    ShapeRuns(s, i, modern, m, a, b, c, m.end);
    LinkAtFromRuns(s, i, modern, a, b, c, m.end);
  }

  /** The character-level facts a match of the matched form consists of. */
  lemma ShapeRuns(s: string, i: nat, modern: bool, m: LinkMatch, a: nat, b: nat, c: nat, d: nat)
    requires i <= |s| && Shape(s, i, modern, m)
    requires a == SchemeEnd(s, i).value && b == a + |m.instance| && c == b + 2 + |m.user| && d == m.end
    ensures a < b && b + 2 < c && c + 1 < d <= |s|
    ensures s[b] == '/' && s[c] == '/' && LitAt(s, b, "/@") && LitAt(s, c, "/")
    ensures forall k :: a <= k < b ==> s[k] != '/'
    ensures forall k :: b + 2 <= k < c ==> s[k] != '/'
    ensures forall k :: c + 1 <= k < d ==> s[k] != ' ' && s[k] != ')'
    ensures d == |s| || s[d] == ' ' || s[d] == ')'
    ensures !(modern && LitAt(s, c + 1, "statuses/"))
    ensures m == LinkMatch(i, d, s[a..b], s[b + 2..c], s[c + 1..d])
  {
    Absent(s, a, b, '/');
    Absent(s, b + 2, c, '/');
    Absent(s, c + 1, d, ' ');
    Absent(s, c + 1, d, ')');
    assert s[b] == s[b..b + 2][0] == '/';
    assert s[c] == s[c..c + 1][0] == '/';
    StatusesRun(s, c + 1, d);
  }

  /** The scan succeeds on a text whose runs end where the fixed characters
      are. */
  lemma LinkAtFromRuns(s: string, i: nat, modern: bool, a: nat, b: nat, c: nat, d: nat)
    requires i <= |s| && SchemeEnd(s, i) == Some(a)
    requires a < b && b + 2 < c && c + 1 < d <= |s|
    requires s[b] == '/' && s[c] == '/' && LitAt(s, b, "/@") && LitAt(s, c, "/")
    requires forall k :: a <= k < b ==> s[k] != '/'
    requires forall k :: b + 2 <= k < c ==> s[k] != '/'
    requires forall k :: c + 1 <= k < d ==> s[k] != ' ' && s[k] != ')'
    requires d == |s| || s[d] == ' ' || s[d] == ')'
    requires !(modern && LitAt(s, c + 1, "statuses/"))
    ensures LinkAt(s, i, modern) == Some(LinkMatch(i, d, s[a..b], s[b + 2..c], s[c + 1..d]))
  {
    RunEndUnique(s, a, b, {'/'});
    RunEndUnique(s, b + 2, c, {'/'});
    RunEndUnique(s, c + 1, d, {' ', ')'});
    LinkAtSteps(s, i, modern, a, b, c, d);
  }

  /** `LinkAt` accepts once every step of its scan succeeds. */
  lemma LinkAtSteps(s: string, i: nat, modern: bool, a: nat, b: nat, c: nat, d: nat)
    requires i <= |s| && SchemeEnd(s, i) == Some(a)
    requires a <= |s| && RunEnd(s, a, {'/'}) == b && b != a && LitAt(s, b, "/@")
    requires RunEnd(s, b + 2, {'/'}) == c && c != b + 2 && LitAt(s, c, "/")
    requires !(modern && LitAt(s, c + 1, "statuses/"))
    requires RunEnd(s, c + 1, {' ', ')'}) == d && d != c + 1
    ensures LinkAt(s, i, modern) == Some(LinkMatch(i, d, s[a..b], s[b + 2..c], s[c + 1..d]))
  {
  }

  /** The post-id run that starts with the literal "statuses/" keeps it. */
  lemma StatusesRun(s: string, c: nat, d: nat)
    requires c <= d <= |s|
    requires forall k :: c <= k < d ==> s[k] != ' ' && s[k] != ')'
    requires d == |s| || s[d] == ' ' || s[d] == ')'
    ensures LitAt(s, c, "statuses/") ==> Text.StartsWith(s[c..d], "statuses/")
  {
    if LitAt(s, c, "statuses/") {
      assert forall k :: c <= k < c + 9 ==> s[k] == "statuses/"[k - c];
      assert d >= c + 9;
      assert s[c..d][..9] == s[c..c + 9];
    }
  }

  /** The converse of `Free`. */
  lemma Absent(s: string, i: nat, j: nat, x: char)
    requires i <= j <= |s|
    requires x !in s[i..j]
    ensures forall k :: i <= k < j ==> s[k] != x
  {
    forall k | i <= k < j
      ensures s[k] != x
    {
      assert s[k] == s[i..j][k - i];
    }
  }

  /** The link the plugin itself writes for a toot,
      `https://<instance>/@<user>/<post>`. */
  function Link(instance: string, user: string, post: string): string {
    "https://" + instance + "/@" + user + "/" + post
  }

  /** The pieces of a written link, followed by anything. */
  lemma LinkPieces(pre: string, instance: string, user: string, post: string, rest: string)
    ensures var s := pre + Link(instance, user, post) + rest;
            var a := |pre| + 8;
            var b := a + |instance|;
            var c := b + 2 + |user|;
            && LitAt(s, |pre|, "https://") && s[a..b] == instance && LitAt(s, b, "/@")
            && s[b + 2..c] == user && LitAt(s, c, "/") && s[c + 1..c + 1 + |post|] == post
            && s[c + 1 + |post|..] == rest
  {
  }

  /** Round trip: a toot link followed by the end of the text, a space or a
      ')' parses back to its instance, user and post id. */
  lemma LinkRoundTrip(pre: string, instance: string, user: string, post: string, rest: string, modern: bool)
    requires Paths.Plain(instance) && Paths.Plain(user)
    requires |post| > 0 && ' ' !in post && ')' !in post
    requires modern ==> !Text.StartsWith(post, "statuses/")
    requires rest == [] || rest[0] == ' ' || rest[0] == ')'
    ensures LinkAt(pre + Link(instance, user, post) + rest, |pre|, modern)
         == Some(LinkMatch(|pre|, |pre| + |Link(instance, user, post)|, instance, user, post))
  {
    var s := pre + Link(instance, user, post) + rest;
    var m := LinkMatch(|pre|, |pre| + |Link(instance, user, post)|, instance, user, post);
    LinkPieces(pre, instance, user, post, rest);
    assert SchemeEnd(s, |pre|) == Some(|pre| + 8);
    if m.end < |s| {
      assert s[m.end] == s[m.end..][0] == rest[0];
    }
    LinkAtComplete(s, |pre|, modern, m);
  }

  /** The current pattern refuses a `/@user/statuses/...` URL that the
      earlier one accepts. */
  lemma StatusesExcluded(instance: string, user: string, rest: string)
    requires Paths.Plain(instance) && Paths.Plain(user)
    requires ' ' !in rest && ')' !in rest
    ensures LinkAt(Link(instance, user, "statuses/" + rest), 0, true) == None
    ensures LinkAt(Link(instance, user, "statuses/" + rest), 0, false).Some?
  {
    var post := "statuses/" + rest;
    var s := Link(instance, user, post);
    assert [] + s + [] == s;
    assert Text.StartsWith(post, "statuses/") by {
      assert post[..9] == "statuses/";
    }
    LinkRoundTrip([], instance, user, post, [], false);
    ModernNarrows(s, 0);
  }

  /** The current pattern accepts only matches the earlier one also makes,
      with the same groups. */
  lemma ModernNarrows(s: string, i: nat)
    requires i <= |s|
    ensures LinkAt(s, i, true).Some? ==> LinkAt(s, i, false) == LinkAt(s, i, true)
  {
  }

  // ------------------------------------------------------------ references

  /** `ref.user_id or json['account']['username']`: the reference's own user
      when it is a non-empty string, else the account name in the record. A
      JSON null there is Python's None. */
  function AccountUser(json: Json, r: Ref): (u: Outcome<Option<string>>)
    ensures r.userId.Some? && r.userId.value != "" ==> u == Ok(r.userId)
    ensures ((r.userId.None? || r.userId.value == "") && json.JObj? && "account" in json.fields
             && Index(json.fields["account"], "username") == Ok(JStr(AccountName(json))))
            ==> u == Ok(Some(AccountName(json)))
    ensures (r.userId.None? || r.userId.value == "") && Index(json, "account").Err? ==> u == Err(Index(json, "account").error)
  {
    if r.userId.Some? && r.userId.value != "" then Ok(r.userId)
    else
      var acct :- Index(json, "account");
      var name :- Index(acct, "username");
      match name
      case JStr(s) => Ok(Some(s))
      case JNull => Ok(None)
      case _ => Err(TypeError)
  }

  /** The account name of a toot record, when it has one as a string. */
  function AccountName(json: Json): string {
    if json.JObj? && "account" in json.fields then
      var acct := json.fields["account"];
      if acct.JObj? && "username" in acct.fields && acct.fields["username"].JStr? then acct.fields["username"].s else ""
    else ""
  }

  /** `seasonPostReference`: keep the reference's user if it has one,
      otherwise take the account name from the record. */
  function Season(json: Json, r: Ref): (r2: Outcome<Ref>)
    ensures r2.Ok? ==> r2.value.cls == r.cls && r2.value.instance == r.instance && r2.value.postId == r.postId
    ensures r.userId.Some? && r.userId.value != "" ==> r2 == Ok(r)
    ensures r2.Ok? <==> AccountUser(json, r).Ok?
    ensures r2.Ok? ==> r2.value.userId == AccountUser(json, r).value
  {
    var u :- AccountUser(json, r);
    Ok(r.(userId := u))
  }

  /** `getPostFilePath`: `socialposts/toots/<instance>/<user>/<file>` (the
      earlier plugin has no `socialposts` root and keeps media queries). The
      user is settled as in `Season`; if there is none the call raises
      `NotImplementedError`, and a reference without an instance (a base
      `PostReference`) raises `AttributeError`. */
  function FilePath(json: Json, r: Ref, media: string, legacy: bool): (p: Outcome<string>)
    ensures p.Ok? ==> AccountUser(json, r).Ok? && AccountUser(json, r).value.Some? && r.instance.Some?
    ensures AccountUser(json, r) == Ok(None) ==> p == Err(NotImplementedError)
  {
    var user :- AccountUser(json, r);
    if user.None? then Err(NotImplementedError)
    else match r.instance
      case None => Err(AttributeError)
      case Some(inst) =>
        Ok(Paths.Join2(TootDir(inst, user.value, legacy), Store.FileName(r.postId, media, !legacy)))
  }

  /** The directory of one account's toots. */
  function TootDir(instance: string, user: string, legacy: bool): string {
    Paths.Join((if legacy then [] else ["socialposts"]) + ["toots", instance, user])
  }

  /** With a plain instance and user the current layout is
      `socialposts/toots/<instance>/<user>/s<post>.json` for the record. */
  lemma FilePathShape(json: Json, instance: string, user: string, post: string)
    requires Paths.Plain(instance) && Paths.Plain(user)
    ensures FilePath(json, TootRef(instance, post, Some(user)), "", false)
         == Ok("socialposts/toots/" + instance + "/" + user + "/s" + post + ".json")
  {
    TootDirShape(instance, user);
    var dir := "socialposts/toots/" + instance + "/" + user;
    assert dir[|dir| - 1] == user[|user| - 1] && user[|user| - 1] in user;
    var name := Store.FileName(post, "", true);
    var r := TootRef(instance, post, Some(user));
    assert AccountUser(json, r) == Ok(Some(user));
    assert FilePath(json, r, "", false) == Ok(Paths.Join2(TootDir(instance, user, false), name));
    assert Paths.Join2(dir, name) == dir + "/" + name;
    assert dir + "/" + name == "socialposts/toots/" + instance + "/" + user + "/s" + post + ".json";
  }

  lemma TootDirShape(instance: string, user: string)
    requires Paths.Plain(instance) && Paths.Plain(user)
    ensures TootDir(instance, user, false) == "socialposts/toots/" + instance + "/" + user
  {
    var parts := ["socialposts", "toots", instance, user];
    assert (if false then [] else ["socialposts"]) + ["toots", instance, user] == parts;
    assert parts[..3] == ["socialposts", "toots", instance];
    Paths.JoinThree("socialposts", "toots", instance);
    var dir3 := "socialposts" + "/" + "toots" + "/" + instance;
    assert dir3[|dir3| - 1] == instance[|instance| - 1] && instance[|instance| - 1] in instance;
    assert user[0] in user;
  }

  /** A reply parent arrives without a user. Looking it up in the cache
      passes an empty record, so the path cannot be computed and the cached
      copy can never be read. */
  lemma NoUserNoCache(r: Ref, media: string, legacy: bool)
    requires r.userId.None?
    ensures FilePath(JObj(map[]), r, media, legacy) == Err(KeyError("account"))
  {
  }

  // ----------------------------------------------------------------- media

  /** `getRealSourceUrl`: the HTML-escaped `url` of an image, video or gifv
      attachment; any other type raises `NotImplementedError`. */
  function RealSourceUrl(media: Json): (u: Outcome<string>)
    ensures u.Ok? ==> Index(media, "type").Ok? && Index(media, "type").value in {JStr("image"), JStr("video"), JStr("gifv")}
    ensures u.Ok? ==> Index(media, "url").Ok? && Index(media, "url").value.JStr?
                      && u.value == Text.HtmlEscape(Index(media, "url").value.s)
    ensures Index(media, "type").Ok? && Index(media, "type").value !in {JStr("image"), JStr("video"), JStr("gifv")}
            ==> u == Err(NotImplementedError)
  {
    var t :- Index(media, "type");
    if t == JStr("image") || t == JStr("video") || t == JStr("gifv") then
      var url :- Index(media, "url");
      var s :- AsStr(url);
      Ok(Text.HtmlEscape(s))
    else Err(NotImplementedError)
  }

  /** The earlier `get_real_src_url`: the same, but an unknown type falls off
      the end of the function and returns None. */
  function LegacyRealSourceUrl(media: Json): (u: Outcome<Option<string>>)
    ensures RealSourceUrl(media).Ok? ==> u == Ok(Some(RealSourceUrl(media).value))
    ensures RealSourceUrl(media) == Err(NotImplementedError) ==> u == Ok(None)
  {
    var t :- Index(media, "type");
    if t == JStr("image") || t == JStr("video") || t == JStr("gifv") then
      var url :- Index(media, "url");
      var s :- AsStr(url);
      Ok(Some(Text.HtmlEscape(s)))
    else Ok(None)
  }

  /** One attachment as `getPostMedia` yields it: `(tail of the url, url)`.
      In the earlier plugin a None url reaches `os.path.split`, which raises
      `TypeError`. */
  function MediaItem(media: Json, legacy: bool): Outcome<(string, Src)> {
    if legacy then
      var o :- LegacyRealSourceUrl(media);
      if o.None? then Err(TypeError) else Ok((Paths.Tail(o.value), Url(o.value)))
    else
      var src :- RealSourceUrl(media);
      Ok((Paths.Tail(src), Url(src)))
  }

  /** `getPostMedia`: one item per entry of `media_attachments`. */
  function Media(json: Json, legacy: bool): (y: Yield<(string, Src)>)
    ensures Index(json, "media_attachments").Err? ==> y == Raise(Index(json, "media_attachments").error)
  {
    match Index(json, "media_attachments")
    case Err(e) => Raise(e)
    case Ok(list) =>
      match Iterate(list)
      case Err(e) => Raise(e)
      case Ok(xs) => Collect(xs, (m: Json) => MediaItem(m, legacy))
  }

  /** Every attachment is a URL named by its last path segment, and the URL is
      the escaped `url` of the attachment at the same position. */
  lemma MediaNamedByTail(json: Json, legacy: bool, k: int)
    requires 0 <= k < |Media(json, legacy).items|
    ensures var (name, src) := Media(json, legacy).items[k];
            src.Url? && name == Paths.Tail(src.url) && '/' !in name
    ensures !legacy ==> (json.JObj? && "media_attachments" in json.fields
                         && json.fields["media_attachments"].JArr?
                         && Media(json, legacy).items[k].1 == Url(RealSourceUrl(json.fields["media_attachments"].items[k]).value))
  {
    var xs := Iterate(Index(json, "media_attachments").value).value;
    assert MediaItem(xs[k], legacy) == Ok(Media(json, legacy).items[k]);
  }

  // --------------------------------------------------------------- getters

  /** The result handling of `getTootJsonApi`: a response carrying a truthy
      `error` raises `ValueError`, anything else is new work. The earlier
      plugin has no such check. */
  function ApiResult(json: Json, legacy: bool): (r: Outcome<Json>)
    ensures legacy ==> r == Ok(json)
    ensures !legacy && json.JObj? ==> (r.Ok? <==> !Truthy(if "error" in json.fields then json.fields["error"] else JNull))
    ensures !legacy && json.JObj? && r.Err? ==> r.error == ValueError
    ensures r.Ok? ==> r.value == json
  {
    if legacy then Ok(json)
    else
      var e :- Get(json, "error");
      if Truthy(e) then Err(ValueError) else Ok(json)
  }

  // ---------------------------------------------------------- related posts

  /** The toot links among the anchors of the content, in order; an anchor
      with no `href` raises `KeyError`. */
  function Quotes(hrefs: seq<Option<string>>, modern: bool): (y: Yield<Ref>)
    ensures |y.items| <= |hrefs|
    ensures forall k :: 0 <= k < |y.items| ==> y.items[k].cls == Sub && y.items[k].instance.Some? && y.items[k].userId.Some?
    ensures y.stop.Some? ==> y.stop.value == KeyError("href")
    ensures (forall k :: 0 <= k < |hrefs| ==> hrefs[k].Some?) ==> y.stop.None?
    decreases |hrefs|
  {
    if |hrefs| == 0 then Yield([], None)
    else match hrefs[0]
      case None => Raise(KeyError("href"))
      case Some(h) =>
        var rest := Quotes(hrefs[1..], modern);
        match LinkAt(h, 0, modern)
        case Some(m) => Yield([TootRef(m.instance, m.post, Some(m.user))] + rest.items, rest.stop)
        case None => rest
  }

  /** `getRelatedPosts`: the reply parent first (same instance, user not
      known), then the toots linked from the content. */
  function Related(env: Env, json: Json, r: Ref, legacy: bool): (y: Yield<Ref>)
  {
    match Get(json, "in_reply_to_id")
    case Err(e) => Raise(e)
    case Ok(parent) =>
      var first: Yield<Ref> :=
        if !Truthy(parent) then Yield([], None)
        else match r.instance
          case None => Raise(AttributeError)
          case Some(inst) => Yield([TootRef(inst, Display(parent), None)], None);
      first.Then(ContentLinks(env, json, legacy))
  }

  /** The toot links of the `content` HTML; content that is not a string
      makes BeautifulSoup raise `TypeError`. */
  function ContentLinks(env: Env, json: Json, legacy: bool): (y: Yield<Ref>)
    ensures forall k :: 0 <= k < |y.items| ==> y.items[k].userId.Some?
  {
    match Index(json, "content")
    case Err(e) => Raise(e)
    case Ok(c) =>
      if c.JStr? then Quotes(env.anchors(c.s), !legacy) else Raise(TypeError)
  }

  /** A reply yields its parent first: a reference on the same instance with
      no user. */
  lemma ReplyParentFirst(env: Env, json: Json, r: Ref, legacy: bool, inst: string)
    requires json.JObj? && "in_reply_to_id" in json.fields && Truthy(json.fields["in_reply_to_id"])
    requires r.instance == Some(inst)
    ensures |Related(env, json, r, legacy).items| >= 1
    ensures Related(env, json, r, legacy).items[0] == TootRef(inst, Display(json.fields["in_reply_to_id"]), None)
  {
  }

  /** Every reference after the first carries a user, so only the reply
      parent can lack one. */
  lemma OnlyParentLacksUser(env: Env, json: Json, r: Ref, legacy: bool)
    ensures var y := Related(env, json, r, legacy);
            forall k :: 1 <= k < |y.items| ==> y.items[k].userId.Some?
  {
    var y := Related(env, json, r, legacy);
    match Get(json, "in_reply_to_id")
    case Err(_) =>
    case Ok(parent) =>
      var q := ContentLinks(env, json, legacy);
      if Truthy(parent) && r.instance.Some? {
        forall k | 1 <= k < |y.items|
          ensures y.items[k].userId.Some?
        {
          assert y.items[k] == q.items[k - 1];
        }
      }
  }
}
