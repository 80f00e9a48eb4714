/** The shared vocabulary of the post-archiving engine: post references, the
    platform adapters, the JSON getters, media sources, the on-disk cache and
    the outside world the engine talks to. */
module Social {
  import opened Wrappers
  import opened Json

  /** The platform adapters. `OldBluesky` and `OldMastodon` are the classes of
      the earlier single-file plugin, which had no Twitter adapter. */
  datatype Adapter = Twitter | Bluesky | Mastodon | OldBluesky | OldMastodon {

    predicate Legacy() {
      this == OldBluesky || this == OldMastodon
    }

    predicate Fedi() {
      this == Mastodon || this == OldMastodon
    }

    predicate Sky() {
      this == Bluesky || this == OldBluesky
    }

    /** `NOUN_POST`: names the cache directory. */
    function Noun(): string {
      match this
      case Twitter => "tweet"
      case Bluesky => "skeet"
      case OldBluesky => "skeet"
      case Mastodon => "toot"
      case OldMastodon => "toot"
    }
  }

  /** Which dataclass a reference is: the base `PostReference` or the
      adapter's own `PostRef`. Dataclass equality compares the class too, so
      two references with equal fields but different classes differ. */
  datatype RefClass = Base | Sub

  /** A post reference. `instance` is present only on the Mastodon `PostRef`
      (reading it from any other reference raises `AttributeError`);
      `userId` is None for a Mastodon reply parent whose author is not yet
      known. `postId` is the text the post id formats as, which is all that
      paths and f-strings see; `postNum` says the id is a Python `int`
      rather than a `str`, which dataclass equality also compares, so
      `PostReference(u, 2)` and `PostReference(u, '2')` differ. */
  datatype Ref = Ref(cls: RefClass, instance: Option<string>, userId: Option<string>, postId: string, postNum: bool := false)

  /** `PostReference(user_id, post_id)`. */
  function BaseRef(user: Option<string>, post: string): Ref {
    Ref(Base, None, user, post)
  }

  /** The adapter's `PostRef(user_id=..., post_id=...)` for Twitter and Bluesky. */
  function PostRef(user: Option<string>, post: string): Ref {
    Ref(Sub, None, user, post)
  }

  /** Mastodon's `PostRef(instance, post_id, user_id)`. */
  function TootRef(instance: string, post: string, user: Option<string>): Ref {
    Ref(Sub, Some(instance), user, post)
  }

  /** The JSON getters, by the name of the adapter method. */
  datatype Getter = Cache | TootApi | SkeetApi | GalleryDlTimed | InternetArchive | GalleryDl

  /** `JSON_GETTERS`, in the order they are tried. */
  function Getters(a: Adapter): (gs: seq<Getter>)
    ensures |gs| >= 2 && gs[0] == Cache
    ensures forall k :: 1 <= k < |gs| ==> gs[k] != Cache
  {
    match a
    case Twitter => [Cache, GalleryDlTimed, InternetArchive, GalleryDl]
    case Bluesky => [Cache, SkeetApi]
    case OldBluesky => [Cache, SkeetApi]
    case Mastodon => [Cache, TootApi]
    case OldMastodon => [Cache, TootApi]
  }

  /** A media source as `getPostMedia` yields it: a URL string, or the
      closure that runs yt-dlp on a stream URL. */
  datatype Src = Url(url: string) | Program(url: string)

  /** What a Python generator produces when it is run to the end: the items it
      yields, then either a normal return (`stop == None`) or the exception
      it raises after the last item. */
  datatype Yield<T> = Yield(items: seq<T>, stop: Option<Error>) {

    /** Running this generator and then, if it returned normally, `next`. */
    function Then(next: Yield<T>): (y: Yield<T>)
      ensures stop.Some? ==> y == this
      ensures stop.None? ==> y.items == items + next.items && y.stop == next.stop
    {
      if stop.Some? then this else Yield(items + next.items, next.stop)
    }
  }

  /** A generator that raises before yielding anything. */
  function Raise<T>(e: Error): Yield<T> {
    Yield([], Some(e))
  }

  /** A loop that yields `f(x)` for each `x` of `xs`, where computing `f(x)`
      may raise: the items computed before the first failure, then that
      failure. */
  function Collect<X, Y>(xs: seq<X>, f: X -> Outcome<Y>): (y: Yield<Y>)
    ensures |y.items| <= |xs|
    ensures forall k :: 0 <= k < |y.items| ==> f(xs[k]) == Ok(y.items[k])
    ensures y.stop.None? ==> |y.items| == |xs|
    ensures y.stop.Some? ==> |y.items| < |xs| && f(xs[|y.items|]) == Err(y.stop.value)
    decreases |xs|
  {
    if |xs| == 0 then Yield([], None)
    else match f(xs[0])
      case Err(e) => Yield([], Some(e))
      case Ok(v) =>
        var rest := Collect(xs[1..], f);
        Yield([v] + rest.items, rest.stop)
  }

  /** The loop stops at the first failure: after exactly the items before it. */
  lemma CollectStopsAt<X, Y>(xs: seq<X>, f: X -> Outcome<Y>, k: int)
    requires 0 <= k < |xs| && f(xs[k]).Err?
    requires forall j :: 0 <= j < k ==> f(xs[j]).Ok?
    ensures Collect(xs, f).stop == Some(f(xs[k]).error) && |Collect(xs, f).items| == k
  {
  }

  /** A loop none of whose steps fails yields every result, in order. */
  lemma CollectAll<X, Y>(xs: seq<X>, f: X -> Outcome<Y>)
    requires forall k :: 0 <= k < |xs| ==> f(xs[k]).Ok?
    ensures Collect(xs, f) == Yield(seq(|xs|, k requires 0 <= k < |xs| => f(xs[k]).value), None)
  {
  }

  /** A file on disk: a JSON document, downloaded bytes (named by where they
      came from), an empty placeholder, or a text file. */
  datatype File = Doc(json: Json) | Blob(from: string) | Empty | Text(body: string)

  /** The observable steps of a run, in order. */
  datatype Event =
    | Enter(ref: Ref, path: seq<Ref>)      // getPostJson(ref, _traversed=path) begins
    | Overflow(ref: Ref, path: seq<Ref>)   // the interpreter's recursion limit is hit
    | Attempt(getter: Getter, ref: Ref)    // a getter is invoked
    | Save(file: string)                   // a post's JSON is written
    | Fetch(url: string, dest: string)     // a download succeeded
    | Run(url: string, dest: string)       // yt-dlp is started
    | Touch(dest: string)                  // an empty placeholder is written
    | Rewrite(file: string)                // a markdown file is written back

  /** The files on disk, the Bluesky post cache (`BSKY_CACHE`, a class-level
      dict that outlives a single lookup), the Bluesky URI cache
      (`bskyTupleToUri_cache`, also class-level) and the events so far. */
  datatype World = World(disk: map<string, File>, bsky: map<Ref, Json>, uris: map<Ref, Json>, trace: seq<Event>) {

    function Emit(e: Event): (w: World)
      ensures w.disk == disk && w.bsky == bsky && w.uris == uris && w.trace == trace + [e]
    {
      World(disk, bsky, uris, trace + [e])
    }

    function Put(path: string, f: File, e: Event): (w: World)
      ensures w.disk == disk[path := f] && w.bsky == bsky && w.uris == uris && w.trace == trace + [e]
    {
      World(disk[path := f], bsky, uris, trace + [e])
    }
  }

  /** Everything the engine gets from outside the process, as functions:
      - `net`: the network getters (gallery-dl, the Internet Archive scraper,
        the Mastodon status API), returning the decoded JSON or the exception;
      - `thread`: `get_post_thread` of the AT protocol client, decoded, for
        a post URI;
      - `did`: `bskyGetDid`, the DID of a handle, as text;
      - `anchors`: the `href`s of the `<a>` elements of an HTML fragment, in
        document order (None for an anchor without one);
      - `http`: whether `urlretrieve` of a URL succeeds;
      - `ytdlp`: running yt-dlp on a stream into a file (Ok(true) when it
        wrote the file);
      - `render`: the `EMBED_TEMPLATE` Jinja2 template. */
  datatype Env = Env(
    net: (Getter, Ref) -> Outcome<Json>,
    thread: Json -> Outcome<Json>,
    did: Option<string> -> Outcome<string>,
    anchors: string -> seq<Option<string>>,
    http: string -> bool,
    ytdlp: (string, string) -> Outcome<bool>,
    render: (Adapter, map<string, string>, Json) -> Outcome<string>)
}
