# perma_social and the site's helper plugins, in Dafny

This project models a static blog's archiving tools and its Pelican helper plugins.

The centre is the `perma_social` engine. It keeps a local copy of social-media posts (Twitter, Bluesky and Mastodon) so that embeds in articles keep working. The model covers:

- **Resolving a post.** The engine tries an ordered chain of getters, the first of which is the on-disk cache. On new work it writes the record, then saves the post's media, then follows the related posts (reply parents, quotes, thread replies). A guard carries the path of references already visited.
- **Paths and media.** It models the cache and media paths and the media downloader, including the archive mirror and the empty placeholder left by a failed download.
- **Blanks.** It models the rewrite of `![](url)` blanks in Markdown sources.
- **Platform adapters.** Each adapter supplies its link pattern, its getters, its related posts, its media list and its source-URL choice.
- **Earlier versions.** The earlier versions of the same engine are modelled next to the current one, and lemmas compare them where they differ:
  - the monolithic `perma_social.py`;
  - the procedural scripts `perma_twitter.py`, `perma_fediverse.py` and `perma_bluesky.py`.

The second part models the site's small plugins:

- the Discord-export-to-Markdown converter;
- the Twitter gallery (loading, dedup, month pages and their paging);
- redirect pages;
- tag pruning;
- anchor-link classes and link validation;
- word count and reading time;
- the CRC-32 hash in draft file names;
- the spoiler-box preprocessor;
- the custom Markdown blocks;
- the related-reading aggregate, the search index and the full outline, with their shared `unTypography` cleaner.

Some things are not modelled directly. Network clients, HTML parsing, templates, logging and the file system's contents are parameters: oracles bundled in an environment value, abstract parse results, or an explicit map from paths to contents. Every Python exception the code can raise on a path is a value of `Json.Error`, carried by an `Outcome`.

The modules follow the source:

- `Engine`, `Resolution`, `Traversal` and `ReplyParent` model `perma_social/common.py`.
- `Mastodon`, `Twitter` and `Bluesky` are the adapters.
- `Store` holds the paths, `Markup` the blank rewriting and `bs_htmlize`.
- `ScriptIo`, `TweetScript`, `TootScript` and `SkeetScript` are the procedural scripts.
- The shared Python semantics live in `Text`, `Json`, `Paths`, `Urls` (the reference resolution of RFC 3986, which `urljoin` follows for the joins the plugins make; the differences are under Left out), `Utf8`, `Crc32`, `Grouping` (`sorted` and `itertools.groupby`), `Html`, `Pages` and `Typography`.

## Model

| member | source | states |
|---|---|---|
| Engine.Season | perma_social/perma_mastodon.py:70-72 | Seasoning keeps the instance and post id; only a Mastodon reference changes, and only its user, and a reference that already names a user is kept as it is |
| Engine.PostPath | perma_social/common.py:97-109 | For every adapter except Mastodon, a post's path is the base class's `getPostFilePath` |
| Engine.RelatedOf | perma_social/common.py:136 | Listing the related posts writes no file and records no event; only the Bluesky URI cache may change |
| Engine.CacheGet | perma_social/common.py:152-155 | The cache getter succeeds exactly when the file the reference would be saved in (its path computed from an empty record) exists and holds JSON; it returns that record and reports no new work |
| Engine.RunGetter | perma_social/common.py:122-124 | A getter writes nothing and records nothing; only the Bluesky API getter may touch the API caches; the cache getter is `CacheGet`; any other getter that succeeds reports new work |
| Engine.Download | perma_social/common.py:33-47 | `urlretrieve` succeeds when the URL or its archive mirror answers, fetching the direct URL first; on failure nothing is written and the first URL's error is raised |
| Engine.Placeholder | perma_social/common.py:186-188 | The `except` of the media loop leaves an empty file at the destination, truncating any file there |
| Engine.SaveOne | perma_social/common.py:169-188 | Saving one media item leaves the API caches alone and records only downloads and placeholders |
| Engine.SaveItems | perma_social/common.py:166-188 | The current media loop records only downloads and placeholders and leaves the API caches alone |
| Engine.LegacySaveItems | perma_social.py:170-181 | The earlier media loop, whose path is computed inside the `try`, records only downloads and placeholders and leaves the API caches alone |
| Engine.SaveMedia | perma_social/common.py:166-188 | `savePostMedia` of either plugin records only downloads and placeholders and leaves the API caches alone |
| Engine.Admit | perma_social/common.py:118-119 | The current plugin refuses a user id containing ':' with `NotImplementedError` and lets every other user id through; the earlier plugin has no check; a missing user raises `TypeError` as written and passes under the corrected guard |
| Engine.Resolve | perma_social/common.py:115-150 | A lookup only ever appends to the record of events |
| Engine.TryGetters | perma_social/common.py:121-150 | The getter loop only ever appends to the record of events |
| Engine.FollowUp | perma_social/common.py:129-142 | The new-work branch (save, media, related posts) only ever appends to the record of events |
| Engine.RecurseAll | perma_social/common.py:136-142 | The related-posts loop only ever appends to the record of events |
| Resolution.ColonRefused | perma_social/common.py:118-119 | A user id containing ':' is refused before any getter runs: the lookup's own start is the only event, and `NotImplementedError` is raised |
| Resolution.LegacyHasNoColonCheck | perma_social.py:125-131 | The earlier plugin tries the cache getter whatever the user id holds |
| Resolution.FirstAttempt | perma_social/common.py:122-124 | The getter loop starts by trying the getter it stands at |
| Resolution.AllGettersFail | perma_social/common.py:121-150 | When every getter fails without side effects, each is tried once, in `JSON_GETTERS` order, and the last one's exception is raised |
| Resolution.FirstSuccessWins | perma_social/common.py:122-143 | Getters that fail are passed over; the first that succeeds ends the lookup and its record is returned, after the follow-up work when it reports new work; no later getter is tried |
| Resolution.GetterFails | perma_social/common.py:144-149 | A failing getter moves the loop on to the next getter with its exception as the last one |
| Resolution.GetterSucceeds | perma_social/common.py:124-143 | A succeeding getter returns its record, after saving, media and related posts when it reports new work |
| Resolution.CacheHitReadOnly | perma_social/common.py:129-143 | A cache hit writes nothing, downloads nothing and looks nothing else up; it returns the cached record |
| Resolution.NoUserNeverCached | perma_social/perma_mastodon.py:75-78 | A Mastodon reference without a user is never served from the cache, because the cache path needs the record's account and the cache getter passes an empty record |
| Resolution.RecurseAllStarts | perma_social/common.py:136-142 | The first event of the related-posts loop, if there is one, starts a lookup |
| Resolution.WriteBeforeRecurse | perma_social/common.py:129-142 | New work happens in order: the record is saved first, then media only, then the lookups of related posts |
| Resolution.SelfRelatedStopsAtCache | perma_social/common.py:136-142 | A post that lists itself as related is looked up once more, because the guard checks the path before it; that lookup stops at once on the record just saved |
| Traversal.ChainStep | perma_social/common.py:137-141 | Extending the traversed list with a reference that is not on it keeps every reference at most twice on the chain |
| Traversal.ResolveSound | perma_social/common.py:115-150 | A lookup's first event is its own; every later event is a lookup below its path that respects the traversed-list guard; the recursion limit is hit exactly `fuel` levels down |
| Traversal.RecurseAllChildren | perma_social/common.py:136-142 | The posts a lookup enters directly are its related posts that are not on the path before it, each called with the path plus the post itself |
| Traversal.ChainLength | perma_social/common.py:137-141 | On a traversal chain each reference occurs at most twice, and then side by side, so a chain is at most twice as long as its set of references |
| Traversal.RepeatIsAdjacent | perma_social/common.py:137-141 | A reference that repeats on a chain repeats right after itself, and the one before was not a repeat |
| Traversal.ChainBound | perma_social/common.py:137-141 | A chain drawn from a finite set of references is at most twice as long as the set |
| Traversal.OverflowLeavesUniverse | perma_social/common.py:115-150 | For Twitter and Bluesky, a lookup given at least twice as many levels as there are reachable references never hits the recursion limit inside that set |
| ReplyParent.ReplyRelated | perma_social/perma_mastodon.py:129-131 | A reply's related posts begin with its parent, whose reference has no user |
| ReplyParent.ReplyLookup | perma_social/common.py:115-150 | A reply the cache lacks and the API serves is looked up through the API, and its outcome is that of its follow-up work |
| ReplyParent.ReplyFollowUp | perma_social/common.py:129-142 | The reply's follow-up work saves it and then looks up the parent; it fails exactly when that lookup fails |
| ReplyParent.ReplyFailsAsWritten | perma_social/common.py:118-119 | As written, `":" in None` on the parent raises `TypeError`, so the lookup of every Mastodon reply fails after the reply is saved |
| ReplyParent.ParentFollowUp | perma_social/common.py:129-142 | The parent, seasoned with its account name, is saved; it has no media and no related posts |
| ReplyParent.ParentResolves | perma_social/common.py:121-143 | With the corrected guard, a parent the API serves is looked up in full: the cache cannot serve it, the API does, seasoning names its account, and it is saved |
| ReplyParent.ReplyResolvesCorrected | perma_social/common.py:115-150 | With the corrected guard, the reply's lookup succeeds and returns the reply |
| Social.Getters | perma_social/common.py:157 | `JSON_GETTERS` tries the cache first, then each adapter's own getters in its order |
| Social.Collect | perma_social/perma_mastodon.py:102-110 | A generator loop yields the items computed before the first failure, then raises that failure |
| Social.CollectStopsAt | perma_social/perma_mastodon.py:102-110 | A generator loop stops at the first failing item, after exactly the items before it |
| Social.CollectAll | perma_social/perma_mastodon.py:102-107 | A generator loop none of whose steps fails yields every result, in order |
| Store.FileName | perma_social/common.py:105-107 | A post's file is `s<post>.json`; a media file is `s<post>-<media>`, cut at its first '?' by the current plugin and left whole by the earlier one; an empty media id names the JSON file |
| Store.FileNameNoQuery | perma_social/common.py:107 | Cutting at '?' changes nothing when the name has none |
| Store.BaseDir | perma_social/common.py:100 | Files live under `socialposts/<noun>s/<user>`, or `<noun>s/<user>` in the earlier plugin |
| Store.BasePath | perma_social/common.py:97-109 | A reference without a user makes the path raise `TypeError`; otherwise the path is the directory joined with the file name |
| Store.BasePathShape | perma_social/common.py:97-109 | With a plain user name the JSON file is `socialposts/<noun>s/<user>/s<post>.json` and a media file is its sibling |
| Store.LegacyBasePathShape | perma_social.py:108-119 | The earlier layout is `<noun>s/<user>/s<post>.json`, with no root directory and no query stripping |
| Mastodon.LinkAt | perma_social/perma_mastodon.py:17 | The `LINK_RE` scanner returns only matches of the pattern's shape, the current one refusing a post id that starts `statuses/` |
| Mastodon.LinkAtComplete | perma_social/perma_mastodon.py:17 | Every text of the pattern's shape at a position is found there |
| Mastodon.LinkPieces | perma_social/perma_mastodon.py:17 | A written link `https://<instance>/@<user>/<post>` has its pieces where the pattern looks for them |
| Mastodon.LinkRoundTrip | perma_social/perma_mastodon.py:17 | Writing a toot link and scanning it gives back its instance, user and post id |
| Mastodon.StatusesExcluded | perma_social/perma_mastodon.py:17 | A `statuses/` link is refused by the current pattern and accepted by the earlier one |
| Mastodon.ModernNarrows | perma_social/perma_mastodon.py:17 | Whatever the current pattern matches, the earlier one matches the same way |
| Mastodon.AccountUser | perma_social/perma_mastodon.py:71 | `post_reference.user_id or json['account']['username']`: a non-empty user is kept, otherwise the record's account name is read, and a record without an account raises its `KeyError` |
| Mastodon.Season | perma_social/perma_mastodon.py:70-72 | Seasoning sets the user to `AccountUser` and changes nothing else; it fails exactly when `AccountUser` fails |
| Mastodon.FilePath | perma_social/perma_mastodon.py:75-91 | A toot's path needs a user (from the reference or the record) and an instance; no user raises `NotImplementedError` |
| Mastodon.FilePathShape | perma_social/perma_mastodon.py:82-91 | With plain names the JSON file is `socialposts/toots/<instance>/<user>/s<post>.json` |
| Mastodon.TootDirShape | perma_social/perma_mastodon.py:82 | A toot's directory is `socialposts/toots/<instance>/<user>` |
| Mastodon.NoUserNoCache | perma_social/perma_mastodon.py:76 | Without a user, the path computed from an empty record raises `KeyError('account')` |
| Mastodon.RealSourceUrl | perma_social/perma_mastodon.py:93-100 | Images, videos and gifv give their URL HTML-escaped; any other type raises `NotImplementedError` |
| Mastodon.LegacyRealSourceUrl | perma_social.py:479-485 | The earlier `get_real_src_url` gives the same URL and None for an unknown type |
| Mastodon.Media | perma_social/perma_mastodon.py:102-110 | A record without `media_attachments` raises its `KeyError` |
| Mastodon.MediaNamedByTail | perma_social/perma_mastodon.py:104-107 | Every media item is a URL named by its last path segment, and the current one is `getRealSourceUrl` of the attachment at the same place |
| Mastodon.ApiResult | perma_social/perma_mastodon.py:115-123 | A response with a truthy `error` raises `ValueError`; any other is returned as new work; the earlier plugin does not check |
| Mastodon.Quotes | perma_social/perma_mastodon.py:135-137 | Each anchor whose href matches `LINK_RE` yields a reference carrying instance and user; an anchor without href raises `KeyError('href')`; at most one reference per anchor |
| Mastodon.ContentLinks | perma_social/perma_mastodon.py:133-137 | Every quoted toot's reference names its user |
| Mastodon.ReplyParentFirst | perma_social/perma_mastodon.py:130-131 | A toot with a truthy `in_reply_to_id` lists its parent first, on the same instance, without a user |
| Mastodon.OnlyParentLacksUser | perma_social/perma_mastodon.py:129-137 | Only the first related reference can lack a user |
| Twitter.DigitsEnd | perma_social/perma_twitter.py:142 | The `\d+` run starting at a position ends at the first character that is not an ASCII digit, or at the end of the text |
| Twitter.DigitsEndUnique | perma_social/perma_twitter.py:142 | The end of a digit run is the only end that has digits before it and a non-digit (or nothing) after it |
| Twitter.HostEnd | perma_social/perma_twitter.py:142 | The host is `twitter.com/` or `x.com/`, and the user name starts right after it; any other host is refused |
| Twitter.From | perma_social/perma_twitter.py:142 | After the host, the scanner returns only matches of the pattern's shape: a user without '/', then `/status/`, then a digit run |
| Twitter.LinkAt | perma_social/perma_twitter.py:142 | `LINK_RE` at a position needs an `https://` or `http://` scheme, an optional `www.` and then the shape above |
| Twitter.FromComplete | perma_social/perma_twitter.py:142 | Every text of the pattern's shape after the host is found |
| Twitter.LinkAtComplete | perma_social/perma_twitter.py:142 | Every link of the pattern's shape, with or without `www.`, is found where it starts |
| Twitter.LinkPieces | perma_social/perma_twitter.py:142 | A written link has its scheme, host, user, `/status/` and id where the pattern looks for them |
| Twitter.LinkRoundTrip | perma_social/perma_twitter.py:142 | Writing a tweet link (any host, with or without `www.`) and scanning it gives back its user and post id, when text that is not a digit follows |
| Twitter.ParsesBack | perma_social/perma_twitter.py:142 | A text laid out as a tweet link, followed by a non-digit, scans back to that link |
| Twitter.FirstPlain | perma_social/perma_twitter.py:190-193 | `next(filter(...))` picks the first variant whose URL's last segment has no `.m3u8`, and raises `StopIteration` when there is none |
| Twitter.Escape | perma_social/perma_twitter.py:185 | `html.escape` applies only to a string; escaping the result of a missing URL raises |
| Twitter.Preferred | perma_social/perma_twitter.py:185 | `media_url_https or media_url` needs the entry to be a mapping |
| Twitter.RealSourceUrl | perma_social/perma_twitter.py:182-196 | Photos give their preferred URL escaped; HLS gives it unescaped; videos and GIFs give the first non-playlist variant's URL escaped; any other type raises `NotImplementedError` |
| Twitter.OnlyPlaylists | perma_social/perma_twitter.py:189-193 | A video whose variants are all playlists raises `StopIteration` |
| Twitter.MediaItem | perma_social/perma_twitter.py:211-225 | Each media item is named by its source URL's last segment; HLS becomes a download program, the rest a URL; a `StopIteration` inside the generator becomes `RuntimeError` |
| Twitter.Avatar | perma_social/perma_twitter.py:226-227 | The avatar is a URL named by its last segment |
| Twitter.Media | perma_social/perma_twitter.py:210-227 | `getPostMedia` yields each media entry in order, stopping at the first failure, and the avatar last |
| Twitter.AvatarYield | perma_social/perma_twitter.py:226-227 | The avatar step yields exactly the avatar when it succeeds |
| Twitter.MediaEndsWithAvatar | perma_social/perma_twitter.py:210-227 | A media run that finishes yields one item per media entry plus the avatar, last; every item is named by its URL's last segment |
| Twitter.MediaKinds | perma_social/perma_twitter.py:214-225 | An item is a download program exactly when its entry is HLS |
| Twitter.PlaylistStopsMedia | perma_social/perma_twitter.py:189-193 | A video with only playlist variants ends the media run with `RuntimeError`, after exactly the items before it |
| Twitter.Related | perma_social/perma_twitter.py:457-462 | At most two related posts, both plain references with no instance; each id keeps whether it is an `int`, so a quoted `int` id and a parent's `str` id never compare equal |
| Twitter.IdRef | perma_social/perma_twitter.py:459-462 | `PostReference(name, id)`: a `str` id is its text, a non-negative `int` its decimal digits, and the reference records exactly when the id is an `int` |
| Twitter.Quoted | perma_social/perma_twitter.py:461-462 | At most one quoted post, a plain reference with no instance |
| Twitter.ReplyThenQuote | perma_social/perma_twitter.py:457-462 | A reply that quotes a tweet lists the parent (user and `str` id from the reply fields) and then the quoted tweet, with the API's `int` id |
| Twitter.IntAndStrIdsDiffer | perma_social/perma_twitter.py:459-462 | A reply to tweet "2" of a user that quotes tweet 2 of that user yields two references that read "2" and still differ, as the `int` and the `str` id do in Python |
| Twitter.GetterOrder | perma_social/perma_twitter.py:447-454 | Tweets are tried from the cache, then gallery-dl under a time limit, then the Internet Archive, then gallery-dl again |
| Twitter.Merge | perma_social/perma_twitter.py:25 | `entities.update(extended_entities)`: the keys of both, the extended value winning |
| Twitter.Pattern | perma_social/perma_twitter.py:69 | `str.replace` needs a string to look for |
| Twitter.LinkUrls | perma_social/perma_twitter.py:59-69 | Entries without a URL leave the text alone |
| Twitter.DropMedia | perma_social/perma_twitter.py:71-74 | Media entries without a URL leave the text alone |
| Twitter.Stripents | perma_social/perma_twitter.py:56-76 | Merging entities that are not mappings raises before anything is replaced |
| Twitter.LinkUrlsAbsent | perma_social/perma_twitter.py:59-69 | URLs that do not occur in the text leave it unchanged |
| Twitter.Frags | perma_social/perma_twitter.py:34-49 | One fragment per media entry: a photo fragment carries the count of all media; a GIF fragment is a looping video; an unknown type raises |
| Twitter.EntitiesFrags | perma_social/perma_twitter.py:24-54 | `tw_entities` gives one fragment per entry of the merged `media`, each photo counting all of them |
| Twitter.UnknownEntityRaises | perma_social/perma_twitter.py:45-46 | A media entry of any other type raises |
| Twitter.Ext | perma_social/perma_twitter.py:104 | `os.path.splitext(...)[1]`: a suffix of the name that starts at its last '.', holding no other '.'; it is empty exactly when no '.' follows a character other than '.', so leading dots alone (".bashrc") give no extension |
| Twitter.AvatarSrcAt | perma_social/perma_twitter.py:83-114 | A URL that is not a string gives `False`; a saved avatar file gives a data URL of its contents; otherwise the remote URL |
| Twitter.AvatarFilter | perma_social/perma_twitter.py:78-80 | `user.get` needs a mapping (`AttributeError`); `user['screen_name']` raises `KeyError` when missing; otherwise the avatar source |
| Twitter.SavedAvatarShape | perma_social/common.py:97-109 | The avatar is saved at `socialposts/tweets/<user>/savatar-<id>` |
| Twitter.AvatarLookupMisses | perma_social/perma_twitter.py:91-114 | As written, the filter looks under `tweets/` without the `socialposts/` root, so a saved avatar is never found and the remote URL is used |
| Twitter.AvatarLookupFinds | perma_social/perma_twitter.py:91-114 | Looking where the media loop saves, the saved avatar is found and inlined |
| Bluesky.From | perma_social/perma_bluesky.py:25 | After `bsky.app/profile/`, the scanner returns only matches of the pattern's shape: a user without '/', then `/post/`, then a post id up to a space or ')' |
| Bluesky.LinkAt | perma_social/perma_bluesky.py:25 | `LINK_RE` at a position needs an `https://` or `http://` scheme, an optional `www.` and then the shape above |
| Bluesky.FromComplete | perma_social/perma_bluesky.py:25 | Every text of the pattern's shape after the host is found |
| Bluesky.LinkAtComplete | perma_social/perma_bluesky.py:25 | Every link of the pattern's shape, with or without `www.`, is found where it starts |
| Bluesky.LinkPieces | perma_social/perma_bluesky.py:25 | A written link has its scheme, host, user, `/post/` and id where the pattern looks for them |
| Bluesky.LinkRoundTrip | perma_social/perma_bluesky.py:25 | Writing a skeet link and scanning it gives back its user and post id, when a space, a ')' or nothing follows |
| Bluesky.ParsesBack | perma_social/perma_bluesky.py:25 | A text laid out as a skeet link scans back to that link |
| Bluesky.MediaItem | perma_social/perma_bluesky.py:86-91 | Each image is fetched from its `fullsize` URL and named by its last segment with '@' turned into '.', so the name holds neither '/' nor '@'; the current plugin also cuts the name at '?' |
| Bluesky.Media | perma_social/perma_bluesky.py:86-91 | `getPostMedia` yields one item per image of `embed`, in order, stopping at the first failure |
| Bluesky.NoEmbedNoMedia | perma_social/perma_bluesky.py:87 | A post without `embed` has no media |
| Bluesky.ModernCutsQuery | perma_social/perma_bluesky.py:89-90 | The current and the earlier media loop (perma_social.py 326-330) fetch the same URLs and stop at the same place; the current names are the earlier ones cut at '?' |
| Bluesky.TupleToUri | perma_social/perma_bluesky.py:98-106 | A cached URI is returned as is; otherwise the URI is built from the user's DID and starts `at://<did>`, and a failing DID lookup raises its error |
| Bluesky.AtUriTail | perma_social/perma_bluesky.py:106 | The last segment of a built URI is the post id |
| Bluesky.PostToRef | perma_social/perma_bluesky.py:110-114 | A post's reference carries its author's handle and its URI's last segment |
| Bluesky.Encachen | perma_social/perma_bluesky.py:116-120 | A falsy post leaves the URI cache alone; otherwise the post's URI is stored under its reference |
| Bluesky.EncachenThenLookup | perma_social/perma_bluesky.py:99-120 | After a post is cached, its reference maps back to its URI |
| Bluesky.BuiltUriReadsBack | perma_social/perma_bluesky.py:106-114 | A post whose URI was built for a reference reads back as that reference (whose id is a `str`, as every Bluesky post id is) |
| Bluesky.GetThread | perma_social/perma_bluesky.py:122-133 | A thread is fetched by the reference's URI, and a successful response holds a thread post |
| Bluesky.EncachenReplies | perma_social/perma_bluesky.py:130-131 | Caching the replies needs a `post` in each |
| Bluesky.SkeetApi | perma_social/perma_bluesky.py:135-161 | The API getter writes no file; the current plugin serves a cached post as is, otherwise stores the thread post stamped with the reference's id, and only adds to its post cache; the earlier plugin (perma_social.py 374-390) keeps no cache |
| Bluesky.SkeetApiTraceFree | perma_social/perma_bluesky.py:135-161 | The API getter does not depend on the record of events |
| Bluesky.StoreReplies | perma_social/perma_bluesky.py:149-152 | Storing the replies only adds to the post cache, and every entry it adds or changes carries its own reference's post id as `id` |
| Bluesky.StoreRepliesNeedRefs | perma_social/perma_bluesky.py:149-152 | Storing the replies succeeds only when every reply yields a reference |
| Bluesky.MissingRepliesFails | perma_social/perma_bluesky.py:147-149 | A thread without `replies` raises `KeyError('replies')` after the post itself is cached |
| Bluesky.Related | perma_social/perma_bluesky.py:163-174 | The related posts are read from the thread of the post's own reference: the parent first, then the replies; a thread fetch failure raises |
| Bluesky.ThreadRefs | perma_social/perma_bluesky.py:170-174 | Every related reference is a plain Bluesky reference |
| Bluesky.RelatedOrder | perma_social/perma_bluesky.py:170-174 | Without a parent, the related posts are the replies in order; with one, the parent and then the replies |
| Markup.LinkAt | perma_social/common.py:242 | `re.match(LINK_RE, ...)` with the adapter's pattern gives a non-empty match starting at the position |
| Markup.EmbedAt | perma_social/common.py:80 | `EMBED_NOTITLE_RE` matches only right after `![](` and only where a ')' follows the link, which it contains |
| Markup.MatchAt | perma_social/common.py:255 | The pattern searched is the no-title embed when only uncaptioned embeds are replaced, otherwise the bare link |
| Markup.Scan | perma_social/common.py:256 | `re.finditer` reports matches in order, none overlapping, each a match of the pattern at its start |
| Markup.ScanComplete | perma_social/common.py:256 | `re.finditer` misses no position where the pattern matches and that no earlier match covers |
| Markup.RefOf | perma_social/common.py:259-260 | `PostRef(**match.groupdict())` carries the matched user and post id, and an instance only for Mastodon |
| Markup.Fill | perma_social/common.py:256-278 | The match loop only appends to the record of events; the text stays clean exactly as long as nothing is rendered, and once dirty stays dirty |
| Markup.ReplaceBlanks | perma_social/common.py:250-282 | `replaceBlanksInFile` reads an existing text file; when it reports a write, the last event is the rewrite of that file |
| Markup.NoMatchNoWrite | perma_social/common.py:254-282 | A text with no match is neither looked up nor written back |
| Markup.ModernSkipsFailures | perma_social/common.py:261-265 | In the current plugin, matches whose lookups all fail leave the text unchanged and unwritten |
| Markup.LegacyAbortsOnFailure | perma_social.py:232-254 | In the earlier plugin, one failed lookup fails the whole file, so it is never written |
| Markup.RenderedIsDirty | perma_social/common.py:262-278 | A match whose lookup succeeds and renders marks the text dirty, so the file is written back |
| Markup.BlankFoundOnce | perma_social/common.py:255-260 | A lone uncaptioned embed is found exactly once, with the link pattern's groups |
| Markup.BlueskyBlankRoundTrip | perma_social/common.py:255-260 | The uncaptioned embed of a skeet link is found once and looked up as that skeet |
| Markup.MastodonBlankRoundTrip | perma_social/common.py:255-260 | The uncaptioned embed of a toot link is found once and looked up as that toot, author included |
| Markup.Batch | perma_social.py:575-583 | The earlier batch runs each file through Bluesky, then Mastodon, with no handler: it only appends to the record of events |
| Markup.BatchSplits | perma_social.py:580-583 | The batch runs file lists one after another; a failure in the first part ends it and nothing of the second part runs |
| Markup.Htmlize | perma_social/common.py:285-301 | The current `bs_htmlize` with no facets gives the text as paragraphs |
| Markup.ParagraphsFlat | perma_social/common.py:286 | Every line break becomes a paragraph break, so the paragraphs contain no "\n" |
| Markup.LinksAgree | perma_social/common.py:288-294 | On link features alone, the current and the earlier `bs_htmlize` (perma_social.py 257-269) give the same text |
| Markup.MentionDiffers | perma_social/common.py:295-296 | A mention is skipped by the current filter and raises `NotImplementedError` in the earlier one |
| Markup.NoFacets | perma_social/common.py:288 | `facets or []` makes missing facets mean none; the earlier filter iterates `None` and raises `TypeError` |
| ScriptIo.Load | perma_fediverse.py:299-301 | Opening and decoding a cached file succeeds exactly when the file exists and holds JSON; otherwise it raises `FileNotFoundError` or the decoding error |
| ScriptIo.FindAll | perma_bluesky.py:340 | `re.finditer` in the scripts reports matches in order, within the text and without overlap |
| ScriptIo.Swallow | perma_bluesky.py:340-356 | The scripts' match loop swallows every failure; the text stays as it was exactly while nothing is replaced, and once dirty stays dirty |
| ScriptIo.ReplaceBlanks | perma_bluesky.py:335-360 | A script's `replaceBlanksInFile` fails only when the file cannot be read; when it reports a write, the last event is the rewrite of the file |
| ScriptIo.AllFailNoWrite | perma_fediverse.py:440-444 | When every match's embed fails, the text is unchanged, so the file is not written |
| ScriptIo.RenderedDirties | perma_fediverse.py:431-439 | One embed that renders marks the text dirty |
| ScriptIo.DownloadAdds | perma_fediverse.py:265-276 | A download to a new path only adds media files |
| TweetScript.Seek | perma_twitter.py:14 | The `.+status\/(\d+)` part of `TWEETEMBED_RE` captures a digit run |
| TweetScript.EmbedAt | perma_twitter.py:14 | `TWEETEMBED_RE` matches `[!Tweet](` or `[!tweet](`, and captures a non-empty numeric id |
| TweetScript.EmbedRoundTrip | perma_twitter.py:14 | A written `[!Tweet](https://twitter.com/<user>/status/<id>)` matches in full and captures the id |
| TweetScript.TweetPathShape | perma_twitter.py:68-69 | A tweet is cached at `tweets/<id>.json` |
| TweetScript.GetTweet | perma_twitter.py:67-84 | A cached tweet is returned as stored without touching the disk; a miss asks the API, writes the file and returns the same JSON; a failure changes nothing |
| TweetScript.CachedIgnoresApi | perma_twitter.py:70-74 | A cached tweet is returned without consulting the API |
| TweetScript.SecondLookupHits | perma_twitter.py:75-84 | After a successful lookup, the next one is a cache hit with the same answer |
| TootScript.TootAt | perma_fediverse.py:19-20 | `TOOTEMBED_NOTITLE_RE` matches only after `![](` and before a ')', and captures an instance and a user without '/' and a non-empty numeric id |
| TootScript.TootAtRoundTrip | perma_fediverse.py:19-20 | The uncaptioned embed of a toot link matches up to its ')', with the link's protocol, instance, user and id as groups |
| TootScript.TootAtOn | perma_fediverse.py:19-20 | Any text laid out as an uncaptioned toot embed matches with those groups |
| TootScript.TootPathShape | perma_fediverse.py:279-281 | A toot is cached at `toots/<instance>/<user>/s<id>.json` |
| TootScript.SaveMedia | perma_fediverse.py:347-359 | The media loop only adds media files, and a failure leaves no placeholder |
| TootScript.MediaStep | perma_fediverse.py:311-325 | The media step only adds media files; a record that is not an object raises `AttributeError` |
| TootScript.GetToot | perma_fediverse.py:278-383 | A cached toot is returned as stored (backlog media only when both switches are on); a miss fetches, writes the file and returns the same object; a fetch failure surfaces as `NameError`; a failure writes nothing but the toot's own file |
| TootScript.CachedIgnoresFetch | perma_fediverse.py:299-327 | A cached toot is returned without consulting the instance |
| TootScript.SecondLookupHits | perma_fediverse.py:339-369 | With the shipped switches, after a fetched toot is stored the next lookup is a cache hit with the same answer and changes nothing |
| TootScript.EmbedToot | perma_fediverse.py:424-438 | One match looks the toot up with media and renders it; a failed lookup fails the match |
| TootScript.ReplaceBlanks | perma_fediverse.py:416-448 | The file fails only when it cannot be read; the no-title pattern is used whatever the flag; a write is the last event |
| SkeetScript.LastParen | perma_bluesky.py:25 | The look-ahead `(?=\))` backs the greedy post id up to the last ')' on its line |
| SkeetScript.SkeetFrom | perma_bluesky.py:24-25 | After the host the match has four groups, and the post id is a non-empty part of one line |
| SkeetScript.SkeetAt | perma_bluesky.py:24-25 | `SKEETEMBED_NOTITLE_RE` matches only after `![](` and before a ')'; `SKEETLINK_RE` needs no ')' |
| SkeetScript.SkeetAtRoundTrip | perma_bluesky.py:24-25 | An uncaptioned embed of a skeet link, alone on its line, matches up to its ')' with the link's user and post id |
| SkeetScript.SkeetAtOn | perma_bluesky.py:24-25 | Any text laid out as such an embed matches the same way |
| SkeetScript.GreedyJoinsLine | perma_bluesky.py:24-25 | Two uncaptioned embeds on one line make one match whose post id runs to the second embed's ')' |
| SkeetScript.CaptionedTakesLine | perma_bluesky.py:24 | Without the look-ahead the post id takes the rest of the line, the ')' included |
| SkeetScript.SkeetPathShape | perma_bluesky.py:222-224 | A skeet is cached at `skeets/<user>/s<id>.json` |
| SkeetScript.Unwrap | perma_bluesky.py:236-239 | The retweet pass-through needs an object, and always gives one |
| SkeetScript.CacheStep | perma_bluesky.py:229-263 | A missing or undecodable file falls through to the API with nothing held; a served record is the file's record after the retweet pass-through; a record is held over only by the backlog media handler |
| SkeetScript.Api | perma_bluesky.py:302-313 | The API needs a login and a DID; it fetches the thread of `at://<did>/app.bsky.feed.post/<id>` and stamps its post with the requested id |
| SkeetScript.ImageDest | perma_bluesky.py:289-291 | Each image is fetched from its `fullsize` URL into `s<id>-<name>`, which needs the record's `id` |
| SkeetScript.Report | perma_bluesky.py:295-296 | The image handler prints `json_obj['id']` and raises `KeyError` when the record has none |
| SkeetScript.SaveImages | perma_bluesky.py:286-296 | The image loop only adds media files and fails only through its handler's `KeyError` |
| SkeetScript.GetSkeet | perma_bluesky.py:220-300 | A served record is returned without a write; with nothing cached and the API failing it raises "Can't retrieve skeet"; with the API answering, the record is written first and returned |
| SkeetScript.CachedRetweet | perma_bluesky.py:236-239 | A cached retweet is served as the retweeted status stamped with the retweeting user, without a write |
| SkeetScript.CachedMediaRaises | perma_bluesky.py:241-255 | With the backlog switch on, a cached skeet with media and an id raises `UnboundLocalError` |
| SkeetScript.CachedMediaNoIdResaved | perma_bluesky.py:241-276 | Without an id, the handler's `KeyError` falls through, and the cached record is written back and returned |
| SkeetScript.EmbedSkeet | perma_bluesky.py:343-351 | One match looks the skeet up with media and renders it with the matched id |
| SkeetScript.ReplaceBlanks | perma_bluesky.py:335-360 | The file fails only when it cannot be read; a write is the last event |
| AnchorLinks.Tag | anchorlinks.py:26-33 | An anchor whose href starts with '#' and none of whose classes is ignored gets `anchorlink` appended to its classes; every other anchor is unchanged; href and text are kept |
| AnchorLinks.TagAll | anchorlinks.py:26-33 | Every anchor is tagged in place, in order, and the content is dirty exactly when some anchor was eligible |
| AnchorLinks.Process | anchorlinks.py:11-38 | Missing content is left alone; otherwise the text and ids are kept and each anchor is tagged with the configured ignore list, by default `footnote-ref` and `toclink` |
| AnchorLinks.CleanBodyUntouched | anchorlinks.py:29-36 | Content with no eligible anchor is not reassigned |
| AnchorLinks.SelfIgnoringIdempotent | anchorlinks.py:26-33 | With `anchorlink` in the ignore list, a second pass changes nothing |
| AnchorLinks.DefaultMarksTwice | anchorlinks.py:9-33 | With the default ignore list, a second pass appends `anchorlink` again |
| HtmlVal.Issues | htmlval.py:17-24 | Exactly one issue per '#' anchor whose fragment is not an element id, in order; other anchors are ignored |
| HtmlVal.Check | htmlval.py:7-27 | An error is logged exactly when there is content and it has issues |
| HtmlVal.OneLinePerIssue | htmlval.py:26-27 | The message is the heading line with the source path followed by one line per issue |
| WordCount.Configure | wordcount.py:11-15 | `WPM` is the setting when given, 200 otherwise; a warning is logged when the setting is missing or falsy |
| WordCount.RoundTen | wordcount.py:27 | `round(n, -1)` is a multiple of ten within five of the count, and an exact tie goes to the even multiple |
| WordCount.RoundTenNearest | wordcount.py:27 | No multiple of ten is closer to the count |
| WordCount.RoundTenUnique | wordcount.py:27 | Any multiple of ten with those properties is the rounded count |
| WordCount.FloorDiv | wordcount.py:29 | Python's `//` rounds toward negative infinity |
| WordCount.Measure | wordcount.py:17-30 | Missing content sets nothing; otherwise the rounded word count and the rate are set; a rate of 0 raises `ZeroDivisionError` before the read time and the link count; otherwise the link count is the number of anchors with an href |
| WordCount.ReadTimeAtRate | wordcount.py:29 | At a positive rate the read time is "< 1" exactly when there are fewer words than the rate, otherwise the whole minutes of `words // WPM` |
| HashDrafts.Hex | hash_drafts.py:29 | `{:08X}` gives exactly the width in uppercase hex digits |
| HashDrafts.ParseHexOfHex | hash_drafts.py:29 | The hex digits read back as the number |
| HashDrafts.Crc32Data | hash_drafts.py:17-29 | `CRC32data` is 8 uppercase hex digits that read back as the CRC-32 of the data |
| HashDrafts.SaveAs | hash_drafts.py:45-46 | `save_as` is `DRAFT_SAVE_AS` formatted with `<slug>-<hash>`, where the hash is the CRC-32 of the UTF-8 content, so equal content gives an equal path |
| HashDrafts.CheckDigits | hash_drafts.py:27-29 | The hash of "123456789" is `CBF43926`, the standard check value of the CRC of section 8.1.1.6.2 of ITU-T V.42 |
| Crc32.Crc | hash_drafts.py:27-28 | The CRC of no data is 0 |
| Crc32.UpdateAppend | hash_drafts.py:27-28 | The CRC register runs over concatenated data one part after the other |
| Crc32.CheckValue | hash_drafts.py:27-28 | The CRC-32 of the bytes of "123456789" is 0xCBF43926 |
| Utf8.EncodeChar | hash_drafts.py:45 | A character encodes to one to four bytes, one exactly for ASCII, continuation bytes in 0x80-0xBF |
| Utf8.DecodeEncode | hash_drafts.py:45 | Decoding the UTF-8 encoding gives back the text |
| Utf8.EncodeInjective | hash_drafts.py:45 | Different texts have different encodings |
| Utf8.AsciiBytes | hash_drafts.py:45 | An ASCII text encodes to its own codes, one byte each |
| PruneTags.RemoveFirst | prune_tags.py:19 | `list.remove` drops one occurrence |
| PruneTags.EntryRemovals | prune_tags.py:15-19 | A tag used by at least one and fewer than `MIN_TAGS` (2) articles is removed from each of them; any other tag from none |
| PruneTags.Removals | prune_tags.py:12-19 | Generators without tags, and tags that are not prunable, remove nothing |
| PruneTags.Apply | prune_tags.py:18-19 | Removing tags keeps every article, and fails only with `ValueError` |
| PruneTags.ApplyOk | prune_tags.py:18-19 | The removals succeed exactly when each article holds every tag to be removed from it, with multiplicity |
| PruneTags.ApplyEffect | prune_tags.py:18-19 | Each article keeps its slug and loses exactly the tags removed from it |
| PruneTags.Keep | prune_tags.py:20 | A generator keeps exactly its tags that are not prunable |
| PruneTags.KeepAll | prune_tags.py:12-20 | Generators without tags are skipped; the others keep exactly their tags that are not prunable |
| PruneTags.Run | prune_tags.py:11-20 | `run` succeeds exactly when every removal finds its tag; then every article loses exactly its removed tags and every generator drops exactly the pruned tags |
| PruneTags.RunIdempotent | prune_tags.py:11-20 | A second run changes nothing |
| PruneTags.SingleUseTagDropped | prune_tags.py:15-20 | A tag used by one article is dropped from it and from the generator |
| Redirects.FormatPlain | redirects.py:59 | `str.format` leaves a text without braces as it is |
| Redirects.OneField | redirects.py:59 | A pattern with one field, like `{slug}/`, formats to the keyword's value in place of the field |
| Redirects.MissingKey | redirects.py:59 | A field naming a keyword the post does not have raises `KeyError` |
| Redirects.Documents | redirects.py:35-39 | The documents are exactly the posts of the generator's non-empty lists among `TYPES_TO_PROCESS` |
| Redirects.Targets | redirects.py:43-48 | The targets are the `ARTICLE_SAVE_AS_OLD` patterns, then the `redirect` metadata split at each comma, with no trimming |
| Redirects.WriteTo | redirects.py:51-64 | A target is written to exactly when `OUTPUT_PATH` is set and the target, one leading '/' stripped, formats |
| Redirects.RecordsFor | redirects.py:50-74 | A target that raises is skipped; every other one appends one record pointing at the post's `save_as`; nothing else is appended |
| Redirects.LinkSourceFiles | redirects.py:29-74 | Records are only appended, and every document's every target that formats has its record |
| Redirects.AllRecords | redirects.py:42-74 | Every document's records are gathered |
| Redirects.Page | redirects.py:16-26 | The page is `REDIRECT_TEMPLATE` with the same url at all three sites |
| Redirects.PageInjective | redirects.py:102 | Different targets give different pages |
| Redirects.OutPath | redirects.py:91-98 | A path ending `.html` is written as that file; any other becomes `index.html` inside it |
| Redirects.StoredPaths | redirects.py:87-102 | After the writes, the files are those before plus the paths written |
| Redirects.LastWriteWins | redirects.py:87-102 | A path holds the last page written to it |
| Redirects.OthersKept | redirects.py:87-102 | A path nothing is written to keeps what it held |
| Redirects.Writes | redirects.py:87-102 | One write per record, in order: its output path and its page |
| Redirects.OnlyHtmlWritten | redirects.py:91-101 | Every file the plugin writes is an `.html` file |
| Redirects.RecordPageWritten | redirects.py:87-102 | A record's page ends up at its path unless a later record writes the same path |
| Redirects.AbsoluteTargetEscapes | redirects.py:55-59 | Only one leading '/' is stripped: a target starting `//` is joined as an absolute path, outside the output directory |
| Redirects.TrailingCommaWritesFrontPage | redirects.py:48-98 | A trailing comma in `redirect` adds an empty target, which writes `index.html` directly in the output directory |
| Spoilerbox.FirstFrom | spoilerbox.py:26 | The first position from a start that holds a given character; none before it does |
| Spoilerbox.CloseFrom | spoilerbox.py:26 | The lazy `[\S\s]*?` stops at the first `[/spoiler]`, compared without case, from its start |
| Spoilerbox.MatchAt | spoilerbox.py:26 | A match at a position opens with `[spoiler`, has either `]` right away (no description) or a space and a description up to `]`, holds content with no closing tag inside, and ends at the first `[/spoiler]`; lines may be crossed |
| Spoilerbox.Search | spoilerbox.py:68-73 | `RE.search` gives the leftmost match, or none when no position matches |
| Spoilerbox.NoBracketNoMatch | spoilerbox.py:26 | A text without '[' holds no block |
| Spoilerbox.HeaderStarts | spoilerbox.py:83-85 | A header that carries the script starts with it; any other starts with the wrapper `div` |
| Spoilerbox.Placeholder | spoilerbox.py:89-90 | A stash placeholder holds no '[' and no line break |
| Spoilerbox.Middle | spoilerbox.py:92 | The replacement keeps the content's brackets and adds none |
| Spoilerbox.StepFewerBrackets | spoilerbox.py:75-92 | Each replacement removes the two tags' brackets, so the loop ends |
| Spoilerbox.BoxesShape | spoilerbox.py:83-90 | The stash grows by a header and a footer per box, and only the first header carries the script |
| Spoilerbox.SearchFits | spoilerbox.py:73-76 | A match lies inside the text and both its tags start with '[' |
| Spoilerbox.Loop | spoilerbox.py:72-94 | The loop replaces matches until none is left; the stash only grows, by pairs of blocks |
| Spoilerbox.Run | spoilerbox.py:67-95 | `run` joins the lines, leaves no block in the result and splits it on "\n"; the script goes only into the first header |
| Spoilerbox.OneBox | spoilerbox.py:67-95 | One box `[spoiler]c[/spoiler]` becomes the lines "", the header's placeholder, `c` verbatim, the footer's placeholder, ""; the stash gets a header with the script and the description "Spoiler", then a footer |
| Spoilerbox.OneBoxLoop | spoilerbox.py:72-94 | One box without inner brackets takes one round of the loop: the content stays in the middle and the stash gains a header with the script and a footer |
| Spoilerbox.OneBoxMatch | spoilerbox.py:26 | `[spoiler]c[/spoiler]` matches at 0 with no description and the content between the tags |
| Spoilerbox.CloseFromIs | spoilerbox.py:26 | The closing tag found is the first one at or after the start |
| CustomBlocks.Slug | gio_customblocks.py:6 | A slug holds no white space |
| CustomBlocks.SlugWords | gio_customblocks.py:6 | Splitting a slug on '-' gives back the argument's words, when they hold no dash |
| CustomBlocks.OneWordSlug | gio_customblocks.py:6 | An argument that is one word is its own slug |
| CustomBlocks.Slugs | gio_customblocks.py:6 | One slug per argument, in order |
| CustomBlocks.Aside | gio_customblocks.py:5-16 | `aside.cb.<title>` with the slugs as extra classes; a missing title is formatted as "None"; the keywords and the content pass through |
| CustomBlocks.Quote | gio_customblocks.py:18-25 | A `blockquote` whose class is the slugs; no header; keywords and content pass through |
| CustomBlocks.Spoiler | gio_customblocks.py:27-41 | A spoiler wrapper with a button labelled with the description and the content under it |
| CustomBlocks.MapList | gio_customblocks.py:61-69 | Every item is rewritten in order; the rewrite fails on the list exactly when it fails on some item, and then with that item's error |
| CustomBlocks.MapItems | gio_customblocks.py:60-69 | Every list of the body is rewritten item by item, other parts are kept; success exactly when every item succeeds |
| CustomBlocks.MessageItem | gio_customblocks.py:62-69 | An author group without text raises `AttributeError`; otherwise it gets `data-author` lowered, loses its text, and gains an author span unless the lowered author is "you" or "them" |
| CustomBlocks.IMessage | gio_customblocks.py:43-71 | The block fails (with `AttributeError`) exactly when some author group has no text; the class is "imessage" and the slugs; the header is there exactly when an image or a name is given, each shown only when given |
| CustomBlocks.IMessageItems | gio_customblocks.py:60-69 | In a finished block every author group has empty text, carries its lowered author, and the named ones lead with the author span |
| CustomBlocks.PassThrough | gio_customblocks.py:80-82 | Exactly the keywords that start neither with `color_` nor with `avatar_` pass on, with their values |
| CustomBlocks.Style | gio_customblocks.py:88-94 | The style is empty exactly when neither colour nor avatar is set and non-empty; the colour comes first |
| CustomBlocks.DiscordItem | gio_customblocks.py:86-96 | An author group without text raises `AttributeError`; otherwise it gets `data-author` lowered and a `style` only when the style is non-empty; text and children stay |
| CustomBlocks.Discord | gio_customblocks.py:74-97 | The block fails exactly when some author group has no text; the class is "discord" and the slugs; only pass-through keywords become attributes |
| CustomBlocks.DiscordIgnoresNameImage | gio_customblocks.py:74 | The name and image given to a `discord` block change nothing |
| CustomBlocks.ColourKeyIsCaseSensitive | gio_customblocks.py:87-89 | The colour is looked up under the author as written: `color_ann` does not style an author "Ann", whose `data-author` is still "ann" |
| RelatedReading.RelatedAnchors | related_reading.py:108 | The anchors carrying the `related_reading` class, and only those, one per such anchor |
| RelatedReading.Links | related_reading.py:107-109 | One link per related anchor, in order, with its text and its target |
| RelatedReading.RelatedAppend | related_reading.py:108 | The related anchors of two stretches of a document are those of each, in order |
| RelatedReading.NodeFromPage | related_reading.py:95-124 | A page that is not published gives no node; a published one gives the cleaned `get_text(' ', strip=True)` of its parsed title, its category's name or "" when it has none or its slug is "none", its url or "." when empty, and its related links with their `href` attributes |
| RelatedReading.TemplateTitle | related_reading.py:140 | No `<title>` gives ""; a title whose string is None raises `TypeError` |
| RelatedReading.NodeFromTPageAsWritten | related_reading.py:126-157 | Every link of a template page, as written, has no target |
| RelatedReading.NodeFromTPage | related_reading.py:126-157 | A template page fails only on a title whose string is None; it has category "page", the site URL joined with its path, and its related links with their targets |
| RelatedReading.TemplateHrefLost | related_reading.py:144 | A link to "/a.html" on a template page loses its target as written and keeps it corrected |
| RelatedReading.TemplateNodes | related_reading.py:72-73 | One node per template page, in order, read as written or with link targets kept; the run fails with `TypeError` exactly when some title's string is None |
| RelatedReading.TemplateNodesAgree | related_reading.py:126-157 | The template nodes as written and corrected fail alike and agree on title, category, url and link texts; as written every link target is lost |
| RelatedReading.PageNodes | related_reading.py:76-77 | One node per page, in order; an unpublished page's None makes the link filter raise `TypeError` |
| RelatedReading.WithLinks | related_reading.py:81 | Exactly the nodes that have links are kept |
| RelatedReading.Generate | related_reading.py:63-83 | The aggregate, with template links read as written or corrected, fails with `TypeError` exactly when a template title's string is None or a page is unpublished |
| RelatedReading.GenerateShape | related_reading.py:79-83 | The groups hold exactly the nodes with links, each as often as it occurs; one group per category, in increasing order of category, and every member of a group has that category |
| RelatedReading.DraftBreaksAggregate | related_reading.py:99-100 | One unpublished page anywhere makes the whole aggregate fail with `TypeError` |
| Tipue.PageUrl | sex_vampires.py:102-104 | An empty url gives "."; with relative URLs the url itself; otherwise the site URL, a slash and the url, and an unset site URL raises `TypeError` |
| Tipue.NodeFromPage | sex_vampires.py:86-114 | An unpublished page gives null; a published one gives the cleaned `get_text(' ', strip=True)` of its parsed title and of its content, its category name as tags, and its address as both `url` and `loc`, failing only when the address does |
| Tipue.VisibleAppend | sex_vampires.py:131 | The text of two stretches of a page is the text of each, in order |
| Tipue.ScriptsIgnored | sex_vampires.py:122-128 | A script anywhere in a page adds nothing to its indexed text |
| Tipue.NodeFromRawPage | sex_vampires.py:116-144 | A missing file raises `FileNotFoundError`, a title whose string is None raises `TypeError`, and nothing else fails; the node has tags "page", no `loc`, the site URL joined with the path, the cleaned text without scripts, and "" as title when the page has none |
| Tipue.RawNodes | sex_vampires.py:66-72 | One node per listed file, in order; the run fails exactly when some listed file is missing or has a title whose string is None |
| Tipue.PageNodes | sex_vampires.py:74-76 | One entry per page, in order; the run fails exactly when one page does |
| Tipue.Nodes | sex_vampires.py:61-76 | The raw pages' nodes, then the template pages', then the pages' and articles'; it fails exactly when one part does |
| Tipue.Document | sex_vampires.py:79 | An object whose only key is "pages", holding one entry per node, in order |
| Tipue.Output | sex_vampires.py:55-84 | The content file is `var tipuesearch = `, the dumped document and `;`, written exactly when every node could be built |
| Tipue.DraftsAreNull | sex_vampires.py:89-91 | A page's place in the index, after all raw and template pages, is null exactly when the page is unpublished |
| Tipue.LocIsUrl | sex_vampires.py:109-111 | A published page's `loc` is its `url` |
| Tipue.TemplateUrl | sex_vampires.py:135 | With a site URL like "https://example.org" and a plain relative path, the address is the site URL, a slash and the path |
| Typography.SkipBreaks | sex_vampires.py:24 | Only line breaks are dropped, and only from the front |
| Typography.Collapse | sex_vampires.py:24 | The result is empty exactly when the input is; it starts with a newline exactly when the input starts with a line break |
| Typography.CollapseKeepsText | sex_vampires.py:24 | Collapsing keeps every character that is not a line break, in order |
| Typography.CollapseCollapsed | sex_vampires.py:24 | After collapsing, no carriage return remains and no newline follows another |
| Typography.CollapseFixes | sex_vampires.py:24 | Text already collapsed is left as it is |
| Typography.ReplaceKeepsCollapsed | sex_vampires.py:27-29 | The later replacements, which hold no newline, keep a collapsed text collapsed |
| Typography.ReplaceRemoves | sex_vampires.py:27 | Replacing a character by a text without it leaves none of it |
| Typography.UnTypography | sex_vampires.py:21-41 | The cleaned text is collapsed (no carriage return, no doubled newline) and holds no curly quote, no pilcrow and no bare caret |
| Typography.PlainUnchanged | related_reading.py:25-45 | Text with no line-break run, no `&nbsp;`, no caret, no curly quote and no pilcrow is returned unchanged |
| Typography.OpeningQuoteEatsSpace | sex_vampires.py:29 | The space after an opening curly double quote is swallowed with it |
| Urls.FirstOf | sex_vampires.py:135 | The first position holding one of the characters; none before it does |
| Urls.Parse | sex_vampires.py:135 | A reference is split into scheme, authority, path, query and fragment with the pattern of appendix B of RFC 3986; each part avoids the delimiters that end it |
| Urls.ParseRecompose | sex_vampires.py:135 | Splitting a reference and putting it back together (section 5.3 of RFC 3986) gives the reference back |
| Urls.NoDotsKept | sex_vampires.py:135 | An absolute path none of whose segments is "." or ".." is kept as it is by dot-segment removal |
| Urls.PlainNames | sex_vampires.py:135 | "search.html" and "pages/about.html" are plain file paths; "../x.html" and "a/./b.html" are not |
| Urls.Merge | sex_vampires.py:135 | The merged path (section 5.2.3 of RFC 3986) ends with the reference's path |
| Urls.Resolve | sex_vampires.py:135 | Strict resolution after section 5.2.2 of RFC 3986: the target keeps the reference's fragment, takes its scheme and authority from the reference when it has them, and keeps the base path and query for an empty reference |
| Urls.Join | sex_vampires.py:135 | An empty base gives the reference; an empty reference gives the base |
| Urls.SiteJoin | related_reading.py:148 | A site URL without a path joined with a plain relative file path (no colon, query or fragment, no "." or ".." segment) is the site URL, a slash and the path |
| Urls.ExampleSibling | sex_vampires.py:135 | "g" against "http://a/b/c/d;p?q" has the path "/b/c/g" (section 5.4.1 of RFC 3986) |
| Urls.ExampleParent | sex_vampires.py:135 | "../g" against "http://a/b/c/d;p?q" has the path "/b/g" (section 5.4.1 of RFC 3986) |
| Pages.CategoryName | related_reading.py:111 | The category's name, or "" when the page has no category or the category's slug is "none" (a category compares with the string 'None' by slug) |
| Pages.NoneSlugBlank | sex_vampires.py:100 | A category named "NONE" with slug "none" is written as no category; one with slug "nonesuch" keeps its name |
| Html.GetTextWords | sex_vampires.py:97 | The words of `get_text(' ', strip=True)` are the words of the text strings, in order: stripping and joining with a space neither merges nor splits a word |
| Html.TextRunsTogether | sex_vampires.py:97 | The strings "a" and "b" read as "ab" by `.text` and as "a b" by `get_text(' ', strip=True)` |
| Html.BlanksDropped | sex_vampires.py:97 | `get_text(' ', strip=True)` of " a ", a newline and "b" is "a b": each string is stripped and the blank one dropped |
| Pages.Gather | sex_vampires.py:61-64 | The pages, then the articles, then translations: a page is gathered exactly when it is a page, an article or a translation of an article |
| Grouping.StrOrder | related_reading.py:81 | Python's order on strings is total, transitive and antisymmetric |
| Grouping.SortPerm | related_reading.py:81 | `sorted` keeps the same elements, as often as before |
| Grouping.SortSorted | related_reading.py:81 | `sorted` puts the elements in order of key |
| Grouping.SortKeepsSorted | related_reading.py:81 | `sorted` is stable: elements already in order stay where they are |
| Grouping.InsertStable | related_reading.py:81 | Inserting an element puts it before every element of equal key already there, keeping their order |
| Grouping.SortStable | related_reading.py:81 | `sorted` is stable: the elements of any one key come out in the order they went in |
| Grouping.GroupBy | related_reading.py:80-83 | `groupby` cuts the list into non-empty runs, whose concatenation is the list; every member has its group's key and neighbouring groups differ in key |
| Grouping.GroupKeysSorted | related_reading.py:80-83 | Grouping a list sorted by key gives groups sorted by key |
| Grouping.GroupSortedDistinct | related_reading.py:80-83 | Grouping a list sorted by a total order gives one group per key |
| FullOutline.DescendantsSmaller | full_outline.py:85-95 | Everything under an element is smaller than it, so the outline's recursion ends |
| FullOutline.Sections | full_outline.py:87 | `findAll('section')` gives exactly the sections anywhere under the element |
| FullOutline.FilterIn | full_outline.py:87 | The filter keeps exactly the elements that pass |
| FullOutline.FilterFirst | full_outline.py:88 | The first element kept is the first one that passes |
| FullOutline.HeadingFirst | full_outline.py:88 | The heading found lies under the section and is the first heading in document order; none is found exactly when the section holds no heading |
| FullOutline.Toc | full_outline.py:85-95 | One entry per section under the element, however deep; it succeeds only when every such section has an `id` and a heading, and otherwise fails with `KeyError` or `AttributeError` |
| FullOutline.TocEntries | full_outline.py:87-94 | Each entry comes from the section at its place, in order: the section's `id`, its first heading's cleaned text, the page url, and the section's own outline as children |
| FullOutline.TocAll | full_outline.py:87-94 | The entries of a list of sections, one per section; every section has an `id` and a heading when it succeeds |
| FullOutline.SectionsClosed | full_outline.py:87-92 | The sections under a section are among the sections under the element |
| FullOutline.TocOk | full_outline.py:85-95 | The outline fails only for a bad section: when every section has an `id` and a heading, it succeeds |
| FullOutline.ExampleDescendants | full_outline.py:87 | The document order of the elements under a small nested example |
| FullOutline.NestedListedTwice | full_outline.py:87-92 | A section inside a section is listed among the outer element's entries and again among its parent's children |
| FullOutline.NodeFromPage | full_outline.py:78-104 | An unpublished page gives None; a published one fails exactly when its outline does (`KeyError` for a missing `id`, `AttributeError` for a missing heading), and otherwise carries the page, its url, its title and its outline |
| FullOutline.Nodes | full_outline.py:61-62 | One node per page, in order; the run fails exactly when a page does |
| FullOutline.Present | full_outline.py:64-66 | A None left by a draft makes the sort key raise `TypeError`; otherwise the nodes, in order |
| FullOutline.Generate | full_outline.py:54-68 | The outline fails exactly when a page's outline does or a page is unpublished; otherwise its groups, read in order, are the nodes sorted by date |
| FullOutline.GenerateShape | full_outline.py:64-68 | Every published page is listed once, in date order, and each group is a run of pages whose categories have one slug |
| FullOutline.CategorySplit | full_outline.py:64-68 | Pages in categories A, B, A by date give three groups, so one category can appear twice |
| FullOutline.Outline | full_outline.py:54-68 | The outline lists one node per gathered page; it exists only when every article is published |
| FullOutline.ArticlesListed | full_outline.py:56 | The articles follow the pages in the gathered list, in order |
| DiscordMarkdown.Prefix | tools/json_to_md.py:22 | `s[:n]` is the first n characters, or all of a shorter string |
| DiscordMarkdown.PairOrder | tools/json_to_md.py:75 | Python's order on (day, channel) pairs is a total order |
| DiscordMarkdown.AuthorKey | tools/json_to_md.py:25-28 | An added member is keyed 'SYS'; any other message by its author's id |
| DiscordMarkdown.Dedup | tools/json_to_md.py:32-36 | The set of avatar arguments: each once, exactly those present |
| DiscordMarkdown.DistinctPerm | tools/json_to_md.py:32 | A rearrangement of distinct strings is still distinct |
| DiscordMarkdown.SortDistinct | tools/json_to_md.py:32 | Sorting distinct strings keeps them and puts them in strictly increasing order |
| DiscordMarkdown.HeaderArgs | tools/json_to_md.py:32-36 | Every author's avatar argument appears exactly once, in strictly increasing order |
| DiscordMarkdown.StrictlySortedUnique | tools/json_to_md.py:32 | Two strictly increasing lists of the same strings are equal, so the header does not depend on how the set was built |
| DiscordMarkdown.HeaderBlock | tools/json_to_md.py:31-37 | The header opens with `::: discord ` followed by the sorted avatar arguments separated by spaces |
| DiscordMarkdown.RepliedIds | tools/json_to_md.py:60-64 | A reply without a reference raises `KeyError`; otherwise exactly the ids that replies refer to |
| DiscordMarkdown.RepliedTo | tools/json_to_md.py:65-69 | Exactly the referenced ids that some message has, each mapped to a message with that id |
| DiscordMarkdown.RepliedToLast | tools/json_to_md.py:65-69 | Of messages sharing a referenced id, the last one is kept |
| DiscordMarkdown.JoinDecorate | tools/json_to_md.py:157 | Joining lines with `<br>` + newline + five spaces and splitting on newlines gives each line decorated, when no line holds a newline |
| DiscordMarkdown.SplitPiecesFree | tools/json_to_md.py:148-149 | The pieces of a split never hold the separator |
| DiscordMarkdown.Block | tools/json_to_md.py:149-153 | A paragraph's block has one line per line of it, the first behind the bullet `    + ` |
| DiscordMarkdown.BlockBare | tools/json_to_md.py:156 | Only an empty paragraph gives the bare bullet |
| DiscordMarkdown.ParagraphShape | tools/json_to_md.py:148-157 | An empty paragraph adds nothing; otherwise one line per line of it, the first behind `    + `, the others behind five spaces, all but the last ending in `<br>` |
| DiscordMarkdown.ParagraphsLines | tools/json_to_md.py:148-157 | Empty paragraphs, as between three newlines, add no line |
| DiscordMarkdown.Preview | tools/json_to_md.py:137-145 | A reply opens with `    + > ` and the shortened text of the message it answers, or `???` when that message is not in the export; a reply without a reference raises `KeyError`; other posts have no preview |
| DiscordMarkdown.AttachmentLines | tools/json_to_md.py:159-161 | One image line per attachment, in order, with its file name and url |
| DiscordMarkdown.PostLines | tools/json_to_md.py:135-161 | A post is its preview, then its paragraphs' lines, then its attachments' lines; it fails exactly when the preview does |
| DiscordMarkdown.MessageLines | tools/json_to_md.py:132-173 | A post gives its lines; an added member the sentence naming the adder and the first mentioned user, and `IndexError` when nobody is mentioned; any other type one HTML comment |
| DiscordMarkdown.MessageFails | tools/json_to_md.py:132-173 | Only a reply without its reference, or an added member with nobody mentioned, stops the conversion |
| DiscordMarkdown.RunFlags | tools/json_to_md.py:103-107 | One label flag per message of the runs |
| DiscordMarkdown.RunFlagsAtChanges | tools/json_to_md.py:98-107 | Labelling the first message of each run of one author is labelling every message whose author key differs from the previous one's; with extra labels every message is labelled |
| DiscordMarkdown.BodyLines | tools/json_to_md.py:103-117 | The day's messages give lines exactly when each message does, and they open with the first message's label and lines |
| DiscordMarkdown.Flags | tools/json_to_md.py:96-107 | A message is labelled exactly when extra labels are on or its author key differs from the previous message's; runs are not re-sorted |
| DiscordMarkdown.LabelsPerRun | tools/json_to_md.py:96-107 | Two messages in a row from one author share a label and the next author gets a new one; with extra labels all three are labelled |
| DiscordMarkdown.GroupLines | tools/json_to_md.py:80-118 | A day's lines open with its date line and a blank, end with an empty line, and exist exactly when every message converts |
| DiscordMarkdown.Printed | tools/json_to_md.py:120-129 | Each line is printed behind four spaces; a blank prints empty when trimming and as the indent otherwise |
| DiscordMarkdown.RenderGroups | tools/json_to_md.py:80-129 | With one channel and no trimming, every printed line starts with four spaces |
| DiscordMarkdown.ChannelMap | tools/json_to_md.py:47-50 | Exactly the channel ids of the documents are mapped |
| DiscordMarkdown.AllMessages | tools/json_to_md.py:52-58 | Every message is marked with the id of the channel of some document |
| DiscordMarkdown.DayGroups | tools/json_to_md.py:74-76 | The day groups are non-empty and, read in order, are the messages sorted by day and channel |
| DiscordMarkdown.DayGroupsShape | tools/json_to_md.py:74-76 | Every message lands in the group of its day and channel, once; each day and channel has one group, in increasing order |
| DiscordMarkdown.FormatDocuments | tools/json_to_md.py:46-129 | A reply without a reference stops everything with `KeyError`; with the no-repeat quirk the output opens with the header of all messages; with one channel and no trimming every line is indented |
| TwitterGallery.AppendValid | twitter_gallery.py:45-55 | Appending an entry whose id has not been seen keeps every id in the corpus once and the seen set equal to the ids present |
| TwitterGallery.Add | twitter_gallery.py:46-55 | An entry whose id was seen changes nothing; otherwise it is appended to its month's bucket; either way its id is seen afterwards |
| TwitterGallery.Step | twitter_gallery.py:36-55 | A file that fails to load or whose date does not parse changes nothing; a loaded tweet appends at most two entries, both in its own month, leaves its id and its parent's id seen, and keeps the corpus free of repeated ids |
| TwitterGallery.LoadFrom | twitter_gallery.py:36-55 | Loading more files only appends to the corpus and only adds seen ids |
| TwitterGallery.Load | twitter_gallery.py:31-57 | The loaded corpus holds every id once |
| TwitterGallery.LoadFromAppend | twitter_gallery.py:36 | Loading two lists of files one after the other is loading their concatenation |
| TwitterGallery.SkipUnreadable | twitter_gallery.py:37-43 | A file that fails to load is skipped: the corpus is the one the other files give |
| TwitterGallery.LoadFromSeen | twitter_gallery.py:45-55 | Every loaded tweet's id, and every reply's parent id, ends up seen |
| TwitterGallery.LoadIds | twitter_gallery.py:31-57 | Each id occurs once in the corpus, and every loaded tweet's id and every reply's parent id are there: nothing is lost but repeats |
| TwitterGallery.PlaceholderFirst | twitter_gallery.py:45-55 | A reply whose parent is unseen appends a placeholder for the parent and then the reply, both in the reply's month |
| TwitterGallery.SeenTweetDropped | twitter_gallery.py:53-55 | A tweet whose id has been seen adds nothing of itself: whatever it appends is a placeholder |
| TwitterGallery.PlaceholderShadowsTweet | twitter_gallery.py:45-55 | A reply loaded before its parent leaves a placeholder that keeps the parent's own text out of the gallery |
| TwitterGallery.AddDate | twitter_gallery.py:82-86 | Adding a month to an increasing list of months keeps it increasing, and adds exactly that month |
| TwitterGallery.Pages | twitter_gallery.py:82-86 | The pages are exactly the months that hold an entry, in increasing order of year and month, each once |
| TwitterGallery.Bucket | twitter_gallery.py:161 | A month's bucket holds exactly the entries placed in that month |
| TwitterGallery.PagesNonEmpty | twitter_gallery.py:82-86 | Every page's bucket is non-empty |
| TwitterGallery.IdText | twitter_gallery.py:161 | An id is written in decimal digits, and a null or missing one as "None" |
| TwitterGallery.ScreenName | twitter_gallery.py:167-171 | A tweet without `user.screen_name` is credited to "giovan_h" |
| TwitterGallery.Desc | twitter_gallery.py:174 | The full text when it is a non-empty string, else the text; none when neither is there |
| TwitterGallery.EscapeOne | twitter_gallery.py:175 | The three replacements after `html.escape` act on each character alone |
| TwitterGallery.EscapeDescChars | twitter_gallery.py:175 | The chain of replacements is the character-by-character escape |
| TwitterGallery.EscapeDescSafe | twitter_gallery.py:175-177 | An escaped description holds no newline and no parenthesis without a backslash before it, so it cannot end the image link early |
| TwitterGallery.BackslashAmbiguous | twitter_gallery.py:175 | Backslashes are not escaped, so a newline and a backslash followed by `n` give the same text |
| TwitterGallery.EntryLine | twitter_gallery.py:162-180 | A placeholder links to an unknown user's status and ends in a space; a tweet is an image link ending in a newline; a tweet with no text writes nothing |
| TwitterGallery.MonthMarkdown | twitter_gallery.py:161 | A month's Markdown exists exactly when no entry's file lacks the `id` key (a null id sorts as "None"), and otherwise fails with `KeyError` |
| TwitterGallery.NullIdLinksNone | twitter_gallery.py:161-177 | A tweet whose id is null is written like any other, its link ending in `status/None` |
| TwitterGallery.MonthShape | twitter_gallery.py:160-180 | A month's Markdown lists its bucket's entries, each as often as it occurs, in increasing order of their ids as text |
| TwitterGallery.TextualIdOrder | twitter_gallery.py:161 | Ids are ordered as text: 10 comes before 9 |
| TwitterGallery.Ref | twitter_gallery.py:152-153 | A page's link points at its month's page |
| TwitterGallery.NextLink | twitter_gallery.py:149-156 | Only the last page has no next link |
| TwitterGallery.NavFrom | twitter_gallery.py:141-209 | The loop's links: each page's next link is the following page; from the second page of a run on, the page's own link is its month and its previous link is the page before's own link |
| TwitterGallery.Navigation | twitter_gallery.py:141-209 | Each page links to itself, to the following page (none for the last) and to the page before (none for the first) |
| TwitterGallery.NavAsWrittenGaps | twitter_gallery.py:134-137 | As written the first page has no link to itself and the second none back to the first; the corrected loop links both |
| TwitterGallery.NavAsWrittenAgrees | twitter_gallery.py:141-209 | Apart from those two links the loop as written agrees with the corrected one |
| TwitterGallery.Render | twitter_gallery.py:141-202 | One page per month, in the order given; the run fails with `KeyError` exactly when some month holds an entry without an id |
| TwitterGallery.Generate | twitter_gallery.py:59-209 | The gallery is one page per month, in calendar order, with its sorted Markdown and its links, from the paging loop as written or corrected; it fails with `KeyError` exactly when some entry's file lacks the `id` key |
| TwitterGallery.GenerateAsWrittenGaps | twitter_gallery.py:134-156 | As written, the first page of a gallery of two months or more has no link to itself and the second none back to the first; the corrected loop gives both and the pages otherwise agree |
| TwitterGallery.GenerateOk | twitter_gallery.py:161 | Every month can be written exactly when no entry of the corpus lacks the `id` key |
| TwitterGallery.MissingIdFails | twitter_gallery.py:161 | A tweet file without the `id` key makes the whole gallery fail, as written or corrected, when no file has a null id |
| TwitterGallery.LoadFromFull | twitter_gallery.py:59-75 | Every tweet in the loaded corpus was read from one of the files |
| Text.ContainsIffOccurs | perma_social/common.py:118 | `in` on strings holds exactly when the pattern occurs at some position |
| Text.JoinSplit | tools/json_to_md.py:148-157 | Joining the pieces of `split(sep)` with `sep` gives the string back |
| Text.SplitJoinChar | gio_customblocks.py:6 | Splitting on a character the pieces do not hold gives the pieces back |
| Text.Before | perma_social/perma_bluesky.py:90 | `split(c)[0]`: the text before the first occurrence of the character; it holds none, and the character follows it when anything does |
| Text.Words | gio_customblocks.py:6 | `str.split()` gives non-empty words holding no white space |
| Text.WordsSpace | gio_customblocks.py:6 | Splitting two texts joined by a space gives the words of each, in order |
| Text.Strip | sex_vampires.py:97 | `str.strip()` is empty exactly when the text is all white space, and otherwise starts and ends with a character that is not |
| Text.WordsStrip | sex_vampires.py:97 | Stripping a text does not change its words |
| Text.Lower | gio_customblocks.py:63 | `lower()` keeps the length and lowers each character |
| Text.EscapeIsSafe | perma_social/perma_twitter.py:62-63 | `html.escape` leaves no `<`, `>`, double or single quote |
| Text.UnescapeEscape | perma_social/perma_twitter.py:62-63 | `html.escape` loses nothing: unescaping gives the text back |
| Json.Index | perma_social/perma_mastodon.py:71 | `obj[k]` is the field when the object has it, `KeyError` when it does not and `TypeError` on a value that is not an object |
| Json.GetOr | twitter_gallery.py:174 | `obj.get(k, d)` is the field or the default on an object, and `AttributeError` on anything else |
| Json.AsStr | twitter_gallery.py:175 | Only a string can be used as one; anything else raises |
| Json.NatDigits | twitter_gallery.py:164 | A number is written as a non-empty run of decimal digits |
| Paths.Join2 | perma_social/common.py:100-109 | `os.path.join` with an absolute second part gives that part |
| Paths.JoinThree | perma_social/common.py:100 | Three parts without slashes are joined with a slash between each |
| Paths.Tail | perma_social/perma_twitter.py:213 | `os.path.split`'s tail holds no slash and ends the path, after a slash when anything precedes it |
| Paths.TailOfJoin | perma_social/common.py:109 | The tail of a directory joined with a file name is the file name |
| Utf8.DecodeEncodeChar | hash_drafts.py:45 | `encode('utf-8')` of a character is read back as that character, whatever follows |
| HashDrafts.CheckHex | hash_drafts.py:29 | `{:08X}` of the CRC-32 check value 0xCBF43926 is "CBF43926" |
| Links.RunEnd | perma_social/perma_twitter.py:142 | A greedy run stops at the first stop character, or at the end |
| Links.RunEndUnique | perma_social/perma_twitter.py:142 | The greedy run's end is the only position with no stop character before it and one at it |

## Left out

- Network clients are oracles in the environment value, each either returning a JSON record or raising. This covers chitose, tweepy, requests, gallery-dl, the flaresolverr request and the yt-dlp subprocess.
- HTML parsing is not modelled; parse results are given as abstract lists and trees. This covers BeautifulSoup, the Nitter and Internet Archive scrapers, and `summarize_html`.
- Jinja templates (`EMBED_TEMPLATE`, `POST_HTML_TEMPLATE`, `TOOT_TEMPLATE` and the Pelican page templates) are one uninterpreted render function.
- Some Markdown and Pelican plumbing carries no logic of its own and is left out:
  - `embedprocessor`, `handleMatch`, `getLink` and `htmlStash`;
  - signal registration, generators and writers;
  - `perma_social/__init__.py` and the current `perma_social/__main__.py`.
- `timeout_decorator` is left out because it is wall-clock time and concurrency. The timed gallery-dl getter is modelled as a getter that may fail.
- `functools.lru_cache` on `bskyGetDid`, `bskyTupleToUri` and `bskyGetThread` is left out. The model reads the URI map and fetches the thread afresh on every call. It agrees with the cached code only while the service answers the same way each time. Two differences follow:
  - a cached `bskyTupleToUri` keeps returning the URI it first built from the DID, even after `bskyEncachenPost` has stored the post's own URI;
  - a cached `bskyGetThread` returns the same dict on every call, including the changes `getSkeetJsonApi` made to it.
- Twitter.Quoted: a reference's post id is kept as its text plus whether it is an `int`, which is exact for the `int` and `str` ids the API gives. An id of another JSON type (a bool, list or object) is kept as the text it formats as. So it is merged with the `str` of that text, and `True` is kept apart from `1`, which Python's `==` equates.
- Logging, glob order, `json.load`/`json.dump`, `datetime.strptime`/`strftime`, `textwrap.shorten` and `repr` are given functions (parameters).
- Unreachable or stub code is left out:
  - `ensureTweetComplete` and `getPostJsonTweepy`, since the Tweepy getter is commented out of the getter list;
  - `getTweetJsonNittr`, which is not in the getter list;
  - `perma_social/perma_new.py`, whose methods all raise `NotImplementedError`.
- `markdeep.py`, `auto_attach.py`, `renderdeps.py` and `chrono.py` are not part of this model; they are reader or generator plumbing without local logic.
- Engine.Resolve: Python's recursion limit is an explicit `fuel` bound. Running out raises `RecursionError`, which the parent's getter loop catches like any other exception. The real limit depends on the interpreter's stack, which the model does not state.
- Text.Lower: only ASCII letters are lowered. Python's full Unicode case mapping is not modelled.
- Spoilerbox.MatchAt: `re.IGNORECASE` is modelled with ASCII case folding only.
- Redirects.Format: `str.format` is modelled for `{name}`, `{{` and `}}` only. Attribute access, indexing and format specs in a target are not modelled.
- Crc32.Crc: the CRC is the bitwise definition, with its check value "123456789" → 0xCBF43926 proved. The table-driven form `binascii` uses is not proved equal to it.
- Mastodon.AccountUser: an `account.username` that is neither a string nor null is treated as raising `TypeError`. Python would go on with that value.
- CustomBlocks.Aside: the element builder of the customblocks library is modelled as a record of selector, attributes, header and body. Its HTML serialisation is not modelled.
- TwitterGallery.Generate leaves out several parts of the generator:
  - the year index page;
  - the `RAW_PAGES_TO_INDEX` list, which the generator resets to empty at twitter_gallery.py:211;
  - the Markdown reader;
  - a `user` field that is not an object (the `TypeError` is not caught);
  - month names, which are taken to be the English ones.
- DiscordMarkdown.FormatDocuments: the three quirk flags are parameters, not module constants. Date and time formatting and `textwrap.shorten` are environment functions.
- Twitter.DigitsEnd: `\d` is read as the ASCII digits 0-9. Python's `re` also matches every other Unicode decimal digit (category Nd), which the model does not. The same holds for Twitter.LinkAt, TweetScript.Seek, TweetScript.EmbedAt and TootScript.TootAt.
- Urls.Join follows RFC 3986 strictly; CPython's `urljoin` differs on inputs the plugins do not produce (a site URL without a path and a plain relative file path, where Urls.SiteJoin shows they agree):
  - a relative reference with the base's own scheme (`http:g`) is joined as relative by `urljoin`;
  - an empty query or fragment (`?` or `#` alone) is dropped by `urljoin`, kept here;
  - when the reference has an authority (`//host/./p`), `urljoin` keeps its path as it is, dot segments included;
  - `urljoin` removes empty segments in the middle of a merged path;
  - `urljoin` lowers the scheme, needs a scheme to start with a letter and returns the reference unchanged when the scheme is not in `uses_relative`.
- Urls.Resolve and Urls.Parse: the same differences as Urls.Join.
- Html.GetText: the strings of a parse tree are given; which strings BeautifulSoup yields for a document is not modelled.
- Utf8.Encode: the encoding is proved only for Dafny's `char`. The model does not cover lone surrogates, which `encode('utf-8')` rejects.

## Findings

| source | as written | input that shows it | evidently intended | confidence | as-written member | corrected member |
|---|---|---|---|---|---|---|
| perma_social/common.py:118-119 | `":" in post_reference.user_id` is evaluated for every reference, and a Mastodon reply parent is built with `user_id` None | a Mastodon post that replies to another: the parent reference has no user, so `":" in None` raises `TypeError` before any getter (the cache included) runs, and the parent is never resolved | only a user id that is a string containing ':' is refused; a reference without user goes on to the getters | not executed | ReplyParent.ReplyFailsAsWritten | ReplyParent.ReplyResolvesCorrected |
| perma_social/perma_twitter.py:91-114 | the avatar is looked up at `tweets/<screen_name>/savatar-<id>` | an avatar saved by the engine lives at `socialposts/tweets/<user>/savatar-<id>`, so the lookup never finds it and the remote URL is always used | look in the directory the engine saves avatars to | not executed | Twitter.AvatarLookupMisses | Twitter.AvatarLookupFinds |
| related_reading.py:144 | `href=anchor.href` | a template page with `<a class="related_reading" href="/a.html">A</a>`: BeautifulSoup reads `.href` as a child tag named `href`, which is None, so the link loses its target | `anchor.get('href')`, as `nodeFromPage` does at line 109 | not executed | RelatedReading.NodeFromTPageAsWritten | RelatedReading.NodeFromTPage |
| twitter_gallery.py:134-209 | `this_page_ref` starts as None and only takes the next link after each page | a gallery of two months: the first page has no link to itself and the second has no link back to the first | every page links to itself and, after the first, to the page before | not executed | TwitterGallery.NavAsWrittenGaps | TwitterGallery.Navigation |
