/** The tweet gallery of twitter_gallery.py: archived tweets are loaded
    into one bucket per (year, month), each id at most once; every month
    becomes a Markdown page of image links, and the pages are chained by
    previous / this / next links in calendar order. */
module TwitterGallery {
  import opened Wrappers
  import opened Json
  import Text
  import Grouping

  // ------------------------------------------------------------- tweets

  type Month = m: nat | 1 <= m <= 12 witness 1

  /** The year and month of a tweet's `created_at`. */
  datatype Date = Date(year: nat, month: Month)

  /** The `id` key of a tweet file: absent, null, or a number. */
  datatype IdKey = NoId | NullId | IdOf(n: nat)

  /** The fields of an archived tweet the gallery reads. `replyTo` is None
      when the key is absent or null; `screenName` is None when `user` or
      its `screen_name` is absent; `fullText` and `text` are None when
      absent or null. `id` is `obj.get("id")`, which does not tell an
      absent key from a null one; `t['id']` does. */
  datatype Tweet = Tweet(key: IdKey, replyTo: Option<nat>, created: Date,
                         screenName: Option<string>, fullText: Option<string>, text: Option<string>)
  {
    const id: Option<nat> := if key.IdOf? then Some(key.n) else None
  }

  /** A bucket entry: the placeholder `{"id": .., "bare_id": True}` for a
      reply's parent, or a tweet as loaded. */
  datatype Entry = Bare(parent: nat) | Full(tweet: Tweet)

  /** An entry together with the bucket it was appended to. */
  datatype Placed = Placed(date: Date, entry: Entry)

  /** The buckets, as the sequence of appends in load order, and the set
      of ids seen so far. */
  datatype Corpus = Corpus(log: seq<Placed>, seen: set<Option<nat>>)

  function EntryId(e: Entry): Option<nat> {
    match e
    case Bare(p) => Some(p)
    case Full(t) => t.id
  }

  /** `if replied_to := obj.get("in_reply_to_status_id")`: present and
      not zero. */
  predicate RepliesTo(t: Tweet) {
    t.replyTo.Some? && t.replyTo.value != 0
  }

  /** The ids the log holds. */
  ghost function IdSet(log: seq<Placed>): set<Option<nat>> {
    set i | 0 <= i < |log| :: EntryId(log[i].entry)
  }

  /** No id occurs twice in the log, and the seen set is exactly the ids
      it holds. */
  ghost predicate Valid(c: Corpus) {
    && (forall i, j :: 0 <= i < j < |c.log| ==> EntryId(c.log[i].entry) != EntryId(c.log[j].entry))
    && c.seen == IdSet(c.log)
  }

  const Empty: Corpus := Corpus([], {})

  /** Appending an entry whose id has not been seen keeps the corpus
      valid. */
  lemma AppendValid(c: Corpus, p: Placed)
    requires Valid(c) && EntryId(p.entry) !in c.seen
    ensures Valid(Corpus(c.log + [p], c.seen + {EntryId(p.entry)}))
  {
    var log := c.log + [p];
    forall i, j | 0 <= i < j < |log| ensures EntryId(log[i].entry) != EntryId(log[j].entry) {
      if j == |c.log| {
        assert log[i] == c.log[i];
        assert EntryId(c.log[i].entry) in IdSet(c.log);
      }
    }
    assert IdSet(log) == IdSet(c.log) + {EntryId(p.entry)} by {
      forall x | x in IdSet(log) ensures x in IdSet(c.log) + {EntryId(p.entry)} {
        var i :| 0 <= i < |log| && EntryId(log[i].entry) == x;
        if i < |c.log| {
          assert log[i] == c.log[i];
        }
      }
      forall x | x in IdSet(c.log) ensures x in IdSet(log) {
        var i :| 0 <= i < |c.log| && EntryId(c.log[i].entry) == x;
        assert log[i] == c.log[i];
      }
      assert log[|c.log|] == p;
    }
  }

  /** Adding `e` to the bucket of `d` unless its id was seen. */
  function Add(c: Corpus, d: Date, e: Entry): (r: Corpus)
    ensures EntryId(e) in c.seen ==> r == c
    ensures EntryId(e) !in c.seen ==> r.log == c.log + [Placed(d, e)]
    ensures r.seen == c.seen + {EntryId(e)}
  {
    if EntryId(e) in c.seen then c else Corpus(c.log + [Placed(d, e)], c.seen + {EntryId(e)})
  }

  /** One iteration of `loadTweets`: None stands for a file that could not
      be opened, parsed, or whose `created_at` did not parse, which is
      skipped. A reply's unseen parent gets a placeholder in the reply's
      bucket first; then the tweet itself, if its id is unseen. */
  function Step(c: Corpus, f: Option<Tweet>): (r: Corpus)
    ensures Valid(c) ==> Valid(r)
    ensures f.None? ==> r == c
    ensures |c.log| <= |r.log| <= |c.log| + 2 && r.log[..|c.log|] == c.log
    ensures forall i :: |c.log| <= i < |r.log| ==> f.Some? && r.log[i].date == f.value.created
    ensures c.seen <= r.seen
    ensures f.Some? ==> f.value.id in r.seen && (RepliesTo(f.value) ==> Some(f.value.replyTo.value) in r.seen)
  {
    match f
    case None => c
    case Some(t) =>
      StepValid(c, t);
      var c1 := if RepliesTo(t) then Add(c, t.created, Bare(t.replyTo.value)) else c;
      Add(c1, t.created, Full(t))
  }

  lemma StepValid(c: Corpus, t: Tweet)
    ensures var c1 := if RepliesTo(t) then Add(c, t.created, Bare(t.replyTo.value)) else c;
            Valid(c) ==> Valid(Add(c1, t.created, Full(t)))
  {
    if RepliesTo(t) {
      AddValid(c, t.created, Bare(t.replyTo.value));
      AddValid(Add(c, t.created, Bare(t.replyTo.value)), t.created, Full(t));
    } else {
      AddValid(c, t.created, Full(t));
    }
  }

  lemma AddValid(c: Corpus, d: Date, e: Entry)
    ensures Valid(c) ==> Valid(Add(c, d, e))
  {
    if Valid(c) && EntryId(e) !in c.seen {
      AppendValid(c, Placed(d, e));
    }
  }

  function LoadFrom(c: Corpus, files: seq<Option<Tweet>>): (r: Corpus)
    ensures Valid(c) ==> Valid(r)
    ensures c.seen <= r.seen
    ensures |c.log| <= |r.log| && r.log[..|c.log|] == c.log
    decreases |files|
  {
    if |files| == 0 then c else LoadFrom(Step(c, files[0]), files[1..])
  }

  /** `loadTweets` over the files in glob order. */
  function Load(files: seq<Option<Tweet>>): (r: Corpus)
    ensures Valid(r)
  {
    LoadFrom(Empty, files)
  }

  lemma {:induction false} LoadFromAppend(c: Corpus, a: seq<Option<Tweet>>, b: seq<Option<Tweet>>)
    ensures LoadFrom(c, a + b) == LoadFrom(LoadFrom(c, a), b)
    decreases |a|
  {
    if |a| > 0 {
      assert (a + b)[0] == a[0] && (a + b)[1..] == a[1..] + b;
      LoadFromAppend(Step(c, a[0]), a[1..], b);
    } else {
      assert a + b == b;
    }
  }

  /** A file that fails to load is skipped: the corpus is the one the
      other files give. */
  lemma SkipUnreadable(a: seq<Option<Tweet>>, b: seq<Option<Tweet>>)
    ensures Load(a + [None] + b) == Load(a + b)
  {
    LoadFromAppend(Empty, a + [None], b);
    LoadFromAppend(Empty, a, [None]);
    LoadFromAppend(Empty, a, b);
  }

  /** Every loaded tweet's id, and every reply's parent id, ends up in
      the corpus. */
  lemma {:induction false} LoadFromSeen(c: Corpus, files: seq<Option<Tweet>>)
    ensures forall k :: 0 <= k < |files| && files[k].Some? ==>
              && files[k].value.id in LoadFrom(c, files).seen
              && (RepliesTo(files[k].value) ==> Some(files[k].value.replyTo.value) in LoadFrom(c, files).seen)
    decreases |files|
  {
    if |files| > 0 {
      LoadFromSeen(Step(c, files[0]), files[1..]);
      forall k | 1 <= k < |files| ensures files[k] == files[1..][k - 1] { }
    }
  }

  /** Each id occurs once in the corpus, and the ids there are exactly the
      ids of the loaded tweets and of their parents: nothing is lost but
      repeats. */
  lemma LoadIds(files: seq<Option<Tweet>>)
    ensures var c := Load(files);
            && (forall i, j :: 0 <= i < j < |c.log| ==> EntryId(c.log[i].entry) != EntryId(c.log[j].entry))
            && (forall k :: 0 <= k < |files| && files[k].Some? ==>
                  && files[k].value.id in IdSet(c.log)
                  && (RepliesTo(files[k].value) ==> Some(files[k].value.replyTo.value) in IdSet(c.log)))
  {
    LoadFromSeen(Empty, files);
  }

  /** A reply whose parent is unseen appends the placeholder and then, in
      the same bucket, the reply. */
  lemma PlaceholderFirst(c: Corpus, t: Tweet)
    requires Valid(c) && RepliesTo(t) && Some(t.replyTo.value) !in c.seen
    requires t.id !in c.seen && t.id != Some(t.replyTo.value)
    ensures Step(c, Some(t)).log == c.log + [Placed(t.created, Bare(t.replyTo.value)), Placed(t.created, Full(t))]
  {
  }

  /** A tweet whose id has been seen, as a tweet or as a placeholder,
      adds nothing of itself: whatever the step appends is a
      placeholder. */
  lemma SeenTweetDropped(c: Corpus, t: Tweet)
    requires t.id in c.seen
    ensures forall i :: |c.log| <= i < |Step(c, Some(t)).log| ==> Step(c, Some(t)).log[i].entry.Bare?
  {
  }

  const Jan: Date := Date(2020, 1)
  const ReplyTo7: Tweet := Tweet(IdOf(8), Some(7), Jan, None, Some("re"), None)
  const Tweet7: Tweet := Tweet(IdOf(7), None, Jan, None, Some("original"), None)

  /** A reply loaded before its parent leaves a placeholder that keeps the
      parent's own text out of the gallery. */
  lemma PlaceholderShadowsTweet()
    ensures Load([Some(ReplyTo7), Some(Tweet7)]).log
            == [Placed(Jan, Bare(7)), Placed(Jan, Full(ReplyTo7))]
  {
    var fs := [Some(ReplyTo7), Some(Tweet7)];
    var c0 := Add(Empty, Jan, Bare(7));
    assert c0 == Corpus([Placed(Jan, Bare(7))], {Some(7)});
    var c1 := Add(c0, Jan, Full(ReplyTo7));
    assert Step(Empty, Some(ReplyTo7)) == c1;
    assert c1.log == [Placed(Jan, Bare(7)), Placed(Jan, Full(ReplyTo7))];
    assert Some(7) in c1.seen;
    assert Step(c1, Some(Tweet7)) == c1;
    assert fs[1..] == [Some(Tweet7)] && fs[1..][1..] == [];
    assert LoadFrom(c1, fs[1..]) == LoadFrom(Step(c1, Some(Tweet7)), []);
  }

  // -------------------------------------------------------------- pages

  predicate DateLt(a: Date, b: Date) {
    a.year < b.year || (a.year == b.year && a.month < b.month)
  }

  ghost predicate StrictlyIncreasing(ds: seq<Date>) {
    forall i, j :: 0 <= i < j < |ds| ==> DateLt(ds[i], ds[j])
  }

  /** `d` added to an increasing list of dates, once. */
  function AddDate(ds: seq<Date>, d: Date): (r: seq<Date>)
    requires StrictlyIncreasing(ds)
    ensures StrictlyIncreasing(r)
    ensures forall x :: x in r <==> x in ds || x == d
    decreases |ds|
  {
    if |ds| == 0 then [d]
    else if d == ds[0] then ds
    else if DateLt(d, ds[0]) then
      assert forall x :: x in ds ==> x == ds[0] || DateLt(ds[0], x);
      [d] + ds
    else
      var rest := AddDate(ds[1..], d);
      assert forall x :: x in ds <==> x == ds[0] || x in ds[1..];
      assert forall x :: x in rest ==> DateLt(ds[0], x);
      [ds[0]] + rest
  }

  /** `in_order_pages`: the (year, month) keys of the buckets, in
      increasing order of year and then month. */
  function Pages(log: seq<Placed>): (r: seq<Date>)
    ensures StrictlyIncreasing(r)
    ensures forall d :: d in r <==> exists i :: 0 <= i < |log| && log[i].date == d
    decreases |log|
  {
    if |log| == 0 then []
    else
      var init := log[..|log| - 1];
      assert forall i :: 0 <= i < |init| ==> init[i] == log[i];
      AddDate(Pages(init), log[|log| - 1].date)
  }

  /** `corpus[year][month]`: the entries appended to one bucket, in
      order. */
  function Bucket(log: seq<Placed>, d: Date): (r: seq<Entry>)
    ensures forall e :: e in r <==> exists i :: 0 <= i < |log| && log[i].date == d && log[i].entry == e
    ensures |r| <= |log|
    decreases |log|
  {
    if |log| == 0 then []
    else
      var rest := Bucket(log[1..], d);
      assert forall i :: 1 <= i < |log| ==> log[1..][i - 1] == log[i];
      if log[0].date == d then [log[0].entry] + rest else rest
  }

  /** Every page has a non-empty bucket. */
  lemma PagesNonEmpty(log: seq<Placed>, k: int)
    requires 0 <= k < |Pages(log)|
    ensures |Bucket(log, Pages(log)[k])| > 0
  {
    assert Pages(log)[k] in Pages(log);
    var i :| 0 <= i < |log| && log[i].date == Pages(log)[k];
    assert log[i].entry in Bucket(log, Pages(log)[k]);
  }

  // -------------------------------------------------------- month pages

  /** `str(id)` and `f"{tweet.get('id')}"`. */
  function IdText(id: Option<nat>): (r: string)
    ensures id.Some? ==> forall i :: 0 <= i < |r| ==> '0' <= r[i] <= '9'
    ensures id.None? ==> r == "None"
  {
    if id.Some? then NatDigits(id.value) else "None"
  }

  /** The sort key `str(t['id'])`: "None" for a null id. */
  function SortKey(e: Entry): string {
    IdText(EntryId(e))
  }

  /** `t['id']` raises `KeyError`: a tweet whose file has no `id` key. */
  predicate NoIdKey(e: Entry) {
    e.Full? && e.tweet.key.NoId?
  }

  /** The user name of the link, `giovan_h` for old-style imports that
      have no `user.screen_name`. */
  function ScreenName(t: Tweet): (r: string)
    ensures t.screenName.None? ==> r == "giovan_h"
    ensures t.screenName.Some? ==> r == t.screenName.value
  {
    if t.screenName.Some? then t.screenName.value else "giovan_h"
  }

  /** `tweet.get('full_text') or tweet.get('text')`: None when neither
      gives a string, which makes the escape raise. */
  function Desc(t: Tweet): (r: Option<string>)
    ensures r.None? <==> (t.fullText.None? || t.fullText.value == "") && t.text.None?
    ensures t.fullText.Some? && t.fullText.value != "" ==> r == t.fullText
  {
    if t.fullText.Some? && t.fullText.value != "" then t.fullText else t.text
  }

  /** `html.escape(desc)`, then `\n`, `(` and `)` each escaped with a
      backslash. */
  function EscapeDesc(s: string): string {
    Chain(Text.HtmlEscape(s))
  }

  /** What one character of a description becomes. */
  function DescChar(c: char): string {
    if c == '\n' then "\\n"
    else if c == '(' then "\\("
    else if c == ')' then "\\)"
    else Text.EscapeChar(c)
  }

  /** The character-by-character reference for `EscapeDesc`. */
  function DescEscape(s: string): string
    decreases |s|
  {
    if |s| == 0 then "" else DescChar(s[0]) + DescEscape(s[1..])
  }

  lemma {:induction false} ReplaceCharAppend(x: string, y: string, c: char, rep: string)
    ensures Text.Replace(x + y, [c], rep) == Text.Replace(x, [c], rep) + Text.Replace(y, [c], rep)
    decreases |x|
  {
    if |x| == 0 {
      assert x + y == y;
    } else {
      assert (x + y)[..1] == [x[0]] && x[..1] == [x[0]];
      assert (x + y)[1..] == x[1..] + y;
      ReplaceCharAppend(x[1..], y, c, rep);
    }
  }

  /** The three backslash escapes, in the order they are applied. */
  function Chain(x: string): string {
    Text.Replace(Text.Replace(Text.Replace(x, "\n", "\\n"), "(", "\\("), ")", "\\)")
  }

  /** The three replacements applied to one character's escape. */
  lemma EscapeOne(c: char)
    ensures Chain(Text.EscapeChar(c)) == DescChar(c)
  {
    if c == '\n' {
      EscapeNewline();
    } else if c == '(' {
      EscapeOpen();
    } else if c == ')' {
      EscapeClose();
    } else {
      var e := Text.EscapeChar(c);
      assert '\n' !in e && '(' !in e && ')' !in e;
      Absent(e, '\n', "\\n");
      Absent(e, '(', "\\(");
      Absent(e, ')', "\\)");
    }
  }

  lemma EscapeNewline()
    ensures Chain("\n") == "\\n"
  {
    ReplaceOwn('\n', "\\n");
    Absent("\\n", '(', "\\(");
    Absent("\\n", ')', "\\)");
  }

  lemma EscapeOpen()
    ensures Chain("(") == "\\("
  {
    Absent("(", '\n', "\\n");
    ReplaceOwn('(', "\\(");
    Absent("\\(", ')', "\\)");
  }

  lemma EscapeClose()
    ensures Chain(")") == "\\)"
  {
    Absent(")", '\n', "\\n");
    Absent(")", '(', "\\(");
    ReplaceOwn(')', "\\)");
  }

  lemma ReplaceOwn(c: char, rep: string)
    ensures Text.Replace([c], [c], rep) == rep
  {
    assert [c][..1] == [c] && [c][1..] == [];
  }

  lemma Absent(s: string, c: char, rep: string)
    requires c !in s
    ensures Text.Replace(s, [c], rep) == s
  {
    NoChar(s, c);
    Text.ReplaceAbsent(s, [c], rep);
  }

  lemma {:induction false} NoChar(s: string, c: char)
    requires c !in s
    ensures !Text.Contains(s, [c])
    decreases |s|
  {
    if |s| > 0 {
      assert s[..1] == [s[0]];
      NoChar(s[1..], c);
    }
  }

  /** The escape chain is the character-by-character escape. */
  lemma {:induction false} EscapeDescChars(s: string)
    ensures EscapeDesc(s) == DescEscape(s)
    decreases |s|
  {
    if |s| > 0 {
      EscapeDescChars(s[1..]);
      var e, t := Text.EscapeChar(s[0]), Text.HtmlEscape(s[1..]);
      ReplaceCharAppend(e, t, '\n', "\\n");
      var e1, t1 := Text.Replace(e, "\n", "\\n"), Text.Replace(t, "\n", "\\n");
      ReplaceCharAppend(e1, t1, '(', "\\(");
      var e2, t2 := Text.Replace(e1, "(", "\\("), Text.Replace(t1, "(", "\\(");
      ReplaceCharAppend(e2, t2, ')', "\\)");
      EscapeOne(s[0]);
    }
  }

  /** Every parenthesis is preceded by a backslash. */
  ghost predicate ParensEscaped(r: string) {
    forall i :: 0 <= i < |r| && (r[i] == '(' || r[i] == ')') ==> 0 < i && r[i - 1] == '\\'
  }

  lemma ParensAppend(a: string, b: string)
    requires ParensEscaped(a) && ParensEscaped(b)
    ensures ParensEscaped(a + b)
  {
    var r := a + b;
    forall i | 0 <= i < |r| && (r[i] == '(' || r[i] == ')') ensures 0 < i && r[i - 1] == '\\' {
      if i >= |a| {
        assert r[i] == b[i - |a|];
        assert r[i - 1] == b[i - |a| - 1];
      }
    }
  }

  lemma {:induction false} DescEscapeSafe(s: string)
    ensures '\n' !in DescEscape(s)
    ensures ParensEscaped(DescEscape(s))
    decreases |s|
  {
    if |s| > 0 {
      DescEscapeSafe(s[1..]);
      var c := s[0];
      assert '\n' !in DescChar(c) && ParensEscaped(DescChar(c)) by {
        if c == '&' || c == '<' || c == '>' || c == '"' || c == '\'' || c == '\n' || c == '(' || c == ')' {
        } else {
          assert DescChar(c) == [c];
        }
      }
      ParensAppend(DescChar(c), DescEscape(s[1..]));
    }
  }

  /** An escaped description cannot break the Markdown line or close the
      link early: it holds no newline and no bare parenthesis. */
  lemma EscapeDescSafe(s: string)
    ensures '\n' !in EscapeDesc(s)
    ensures forall i :: 0 <= i < |EscapeDesc(s)| && (EscapeDesc(s)[i] == '(' || EscapeDesc(s)[i] == ')') ==> 0 < i && EscapeDesc(s)[i - 1] == '\\'
  {
    EscapeDescChars(s);
    DescEscapeSafe(s);
  }

  /** Backslashes are not escaped, so a newline and a backslash followed
      by `n` give the same text. */
  lemma BackslashAmbiguous()
    ensures EscapeDesc("\n") == EscapeDesc("\\n")
  {
    EscapeDescChars("\n");
    EscapeDescChars("\\n");
    NewlineDesc();
    BackslashDesc();
  }

  lemma NewlineDesc()
    ensures DescEscape("\n") == "\\n"
  {
    assert "\n"[1..] == "";
  }

  lemma BackslashDesc()
    ensures DescEscape("\\n") == "\\n"
  {
    var s := "\\n";
    assert s[1..] == "n" && s[1..][1..] == "";
    assert DescChar('n') == "n" && DescChar('\\') == "\\";
  }

  function StatusUrl(user: string, id: string): string {
    "https://twitter.com/" + user + "/status/" + id
  }

  /** One entry's Markdown: a placeholder links to an unknown user's
      status and ends in a space; a tweet is an image link ended by a
      newline, or nothing when it has no text to describe it. */
  function EntryLine(e: Entry): (r: string)
    ensures r == "" <==> e.Full? && Desc(e.tweet).None?
    ensures e.Bare? ==> r == "![" + NatDigits(e.parent) + "](" + StatusUrl("unknown", NatDigits(e.parent)) + ") "
    ensures e.Full? && Desc(e.tweet).Some? ==>
              r == "![" + EscapeDesc(Desc(e.tweet).value) + "](" + StatusUrl(ScreenName(e.tweet), IdText(e.tweet.id)) + ")\n"
  {
    match e
    case Bare(p) => "![" + NatDigits(p) + "](" + StatusUrl("unknown", NatDigits(p)) + ") "
    case Full(t) =>
      match Desc(t)
      case None => ""
      case Some(d) => "![" + EscapeDesc(d) + "](" + StatusUrl(ScreenName(t), IdText(t.id)) + ")\n"
  }

  function Lines(es: seq<Entry>): string
    decreases |es|
  {
    if |es| == 0 then "" else EntryLine(es[0]) + Lines(es[1..])
  }

  /** The Markdown of one month: the bucket sorted by `str(id)`, one line
      per entry. Sorting needs every entry's `id` key (`t['id']` raises
      `KeyError` otherwise); a null id sorts as "None". */
  function MonthMarkdown(bucket: seq<Entry>): (r: Outcome<string>)
    ensures r.Ok? <==> forall k :: 0 <= k < |bucket| ==> !NoIdKey(bucket[k])
    ensures r.Err? ==> r.error == KeyError("id")
  {
    if exists k :: 0 <= k < |bucket| && NoIdKey(bucket[k]) then Err(KeyError("id"))
    else Ok(Lines(Grouping.Sort(bucket, SortKey, Grouping.StrLe)))
  }

  /** A month's Markdown lists the bucket's entries, each as often as it
      occurs, in increasing order of their ids as text. */
  lemma MonthShape(bucket: seq<Entry>)
    requires MonthMarkdown(bucket).Ok?
    ensures exists ys :: && multiset(ys) == multiset(bucket)
                         && Grouping.SortedBy(ys, SortKey, Grouping.StrLe)
                         && MonthMarkdown(bucket).value == Lines(ys)
  {
    var ys := Grouping.Sort(bucket, SortKey, Grouping.StrLe);
    Grouping.SortPerm(bucket, SortKey, Grouping.StrLe);
    Grouping.StrOrder();
    Grouping.SortSorted(bucket, SortKey, Grouping.StrLe);
  }

  /** A tweet whose id is null is written, like any other, with the link
      ending in `status/None`. */
  lemma NullIdLinksNone(t: Tweet)
    requires t.key.NullId? && Desc(t).Some?
    ensures MonthMarkdown([Full(t)]) == Ok("![" + EscapeDesc(Desc(t).value) + "](" + StatusUrl(ScreenName(t), "None") + ")\n")
  {
    var b := [Full(t)];
    assert b[1..] == [];
    assert !NoIdKey(b[0]) && t.id == None;
    assert Grouping.Sort(b, SortKey, Grouping.StrLe) == b;
    assert forall k :: 0 <= k < |b| ==> !NoIdKey(b[k]);
    assert Lines(b) == EntryLine(Full(t)) + Lines([]) == EntryLine(Full(t)) + "";
    assert EntryLine(Full(t)) == "![" + EscapeDesc(Desc(t).value) + "](" + StatusUrl(ScreenName(t), "None") + ")\n";
    assert !(exists k :: 0 <= k < |b| && NoIdKey(b[k]));
    assert MonthMarkdown(b) == Ok(Lines(Grouping.Sort(b, SortKey, Grouping.StrLe)));
    assert Lines(b) == EntryLine(Full(t));
  }

  /** Ids are ordered as text, not as numbers: 10 comes before 9. */
  lemma TextualIdOrder()
    ensures Grouping.Sort([Bare(9), Bare(10)], SortKey, Grouping.StrLe) == [Bare(10), Bare(9)]
  {
    assert NatDigits(10) == "10" by {
      assert NatDigits(1) == "1";
    }
    assert SortKey(Bare(10)) == "10" && SortKey(Bare(9)) == "9";
    assert !Grouping.StrLe("9", "10");
    var xs := [Bare(9), Bare(10)];
    assert xs[1..] == [Bare(10)] && xs[1..][1..] == [];
    assert Grouping.Sort(xs[1..], SortKey, Grouping.StrLe) == [Bare(10)];
    assert Grouping.Insert(Bare(9), [Bare(10)], SortKey, Grouping.StrLe) == [Bare(10)] + Grouping.Insert(Bare(9), [], SortKey, Grouping.StrLe);
  }

  // ------------------------------------------------------------- paging

  /** A page reference and its label; (None, "ERROR") where there is no
      page. */
  datatype Link = Link(href: Option<string>, caption: string)

  datatype Nav = Nav(prev: Link, current: Link, next: Link)

  const Missing: Link := Link(None, "ERROR")

  /** `calendar.month_name` in the English locale. */
  const MonthNames: seq<string> := ["", "January", "February", "March", "April", "May", "June",
                                    "July", "August", "September", "October", "November", "December"]

  function PagePath(d: Date): string {
    "twgallery/" + NatDigits(d.year) + "/" + NatDigits(d.month) + ".html"
  }

  /** The link to a month's page, labelled with the month's name and the
      year. */
  function Ref(d: Date): (r: Link)
    ensures r.href == Some(PagePath(d)) && r != Missing
  {
    Link(Some(PagePath(d)), MonthNames[d.month] + " " + NatDigits(d.year))
  }

  /** The next link of page `j`: the page after it, or none for the last
      one. */
  function NextLink(ps: seq<Date>, j: int): (r: Link)
    requires 0 <= j < |ps|
    ensures r == Missing <==> j == |ps| - 1
  {
    if j + 1 < |ps| then Ref(ps[j + 1]) else Missing
  }

  /** The paging loop from page `i`, with the previous and this-page
      links it carries in: each page's next link is computed, and after
      the page this becomes previous and next becomes this. */
  function NavFrom(ps: seq<Date>, i: nat, prev: Link, cur: Link): (r: seq<Nav>)
    requires i <= |ps|
    ensures |r| == |ps| - i
    ensures |r| > 0 ==> r[0].prev == prev && r[0].current == cur
    ensures forall k :: 0 <= k < |r| ==> r[k].next == NextLink(ps, i + k)
    ensures forall k :: 1 <= k < |r| ==> r[k].current == Ref(ps[i + k]) && r[k].prev == r[k - 1].current
    decreases |ps| - i
  {
    if i == |ps| then []
    else
      var next := NextLink(ps, i);
      var rest := NavFrom(ps, i + 1, cur, next);
      var r := [Nav(prev, cur, next)] + rest;
      assert forall k :: 1 <= k < |r| ==> r[k] == rest[k - 1];
      r
  }

  /** The loop as written: previous and this start empty. */
  function NavAsWritten(ps: seq<Date>): (r: seq<Nav>)
    ensures |r| == |ps|
  {
    NavFrom(ps, 0, Missing, Missing)
  }

  /** The loop with this-page starting at the first page. */
  function Navigation(ps: seq<Date>): (r: seq<Nav>)
    ensures |r| == |ps|
    ensures forall k :: 0 <= k < |ps| ==> r[k].current == Ref(ps[k]) && r[k].next == NextLink(ps, k)
    ensures forall k :: 0 <= k < |ps| ==> r[k].prev == if k == 0 then Missing else Ref(ps[k - 1])
  {
    if |ps| == 0 then [] else NavFrom(ps, 0, Missing, Ref(ps[0]))
  }

  /** As written, the first page has no link to itself and the second no
      link back to the first, though the first exists; the corrected loop
      links both. */
  lemma NavAsWrittenGaps(ps: seq<Date>)
    requires |ps| >= 2
    ensures NavAsWritten(ps)[0].current == Missing && NavAsWritten(ps)[1].prev == Missing
    ensures Navigation(ps)[0].current == Ref(ps[0]) && Navigation(ps)[1].prev == Ref(ps[0])
  {
  }

  /** Apart from those two links the loop as written agrees with the
      corrected one: from the second page on in the page's own link, from
      the third on in every link. */
  lemma NavAsWrittenAgrees(ps: seq<Date>)
    ensures forall k :: 1 <= k < |ps| ==> NavAsWritten(ps)[k].current == Navigation(ps)[k].current
    ensures forall k :: 0 <= k < |ps| ==> NavAsWritten(ps)[k].next == Navigation(ps)[k].next
    ensures forall k :: 2 <= k < |ps| ==> NavAsWritten(ps)[k].prev == Navigation(ps)[k].prev
  {
    var w := NavAsWritten(ps);
    forall k | 2 <= k < |ps| ensures w[k].prev == Ref(ps[k - 1]) {
      assert w[k].prev == w[k - 1].current;
    }
  }

  // ------------------------------------------------------------ gallery

  /** A month's page: its date, its path, its Markdown and its links. */
  datatype MonthPage = MonthPage(date: Date, path: string, markdown: string, nav: Nav)

  predicate MonthOk(log: seq<Placed>, d: Date) {
    MonthMarkdown(Bucket(log, d)).Ok?
  }

  /** The page of month `d`, once its Markdown has been written. */
  function PageOf(log: seq<Placed>, d: Date, nav: Nav): MonthPage
    requires MonthOk(log, d)
  {
    MonthPage(d, PagePath(d), MonthMarkdown(Bucket(log, d)).value, nav)
  }

  /** One page per month, in the order given; the first month that
      cannot be written stops the run. */
  function Render(log: seq<Placed>, ps: seq<Date>, navs: seq<Nav>): (r: Outcome<seq<MonthPage>>)
    requires |navs| == |ps|
    ensures r.Ok? <==> forall k :: 0 <= k < |ps| ==> MonthOk(log, ps[k])
    ensures r.Err? ==> r.error == KeyError("id")
    ensures r.Ok? ==> |r.value| == |ps| && forall k :: 0 <= k < |ps| ==> r.value[k] == PageOf(log, ps[k], navs[k])
    decreases |ps|
  {
    if |ps| == 0 then Ok([])
    else
      assert forall k :: 1 <= k < |ps| ==> ps[1..][k - 1] == ps[k] && navs[1..][k - 1] == navs[k];
      var md := MonthMarkdown(Bucket(log, ps[0]));
      var rest := Render(log, ps[1..], navs[1..]);
      if md.Err? then Err(md.error)
      else if rest.Err? then Err(rest.error)
      else Ok([PageOf(log, ps[0], navs[0])] + rest.value)
  }

  /** The page links: the loop as written, or the corrected one. */
  function Links(ps: seq<Date>, corrected: bool): (r: seq<Nav>)
    ensures |r| == |ps|
  {
    if corrected then Navigation(ps) else NavAsWritten(ps)
  }

  /** The gallery's month pages, in calendar order; a month holding a
      tweet without an `id` key stops the run. `corrected` chooses the
      paging loop: as written, or with the first page linking to itself. */
  function Generate(files: seq<Option<Tweet>>, corrected: bool): (r: Outcome<seq<MonthPage>>)
    ensures var log := Load(files).log;
            var ps := Pages(log);
            && (r.Ok? <==> forall i :: 0 <= i < |log| ==> !NoIdKey(log[i].entry))
            && (r.Err? ==> r.error == KeyError("id"))
            && (r.Ok? ==> |r.value| == |ps| && forall k :: 0 <= k < |ps| ==>
                  MonthOk(log, ps[k]) && r.value[k] == PageOf(log, ps[k], Links(ps, corrected)[k]))
  {
    var log := Load(files).log;
    var ps := Pages(log);
    var r := Render(log, ps, Links(ps, corrected));
    GenerateOk(log);
    r
  }

  /** As written, the gallery's first page carries no link to itself and
      its second page no link back to the first; the corrected loop gives
      both, and the pages are otherwise the same. */
  lemma GenerateAsWrittenGaps(files: seq<Option<Tweet>>)
    requires Generate(files, false).Ok? && |Pages(Load(files).log)| >= 2
    ensures var ps := Pages(Load(files).log);
            var w := Generate(files, false).value;
            var c := Generate(files, true).value;
            && w[0].nav.current == Missing && c[0].nav.current == Ref(ps[0])
            && w[1].nav.prev == Missing && c[1].nav.prev == Ref(ps[0])
            && (forall k :: 0 <= k < |ps| ==> w[k].markdown == c[k].markdown && w[k].nav.next == c[k].nav.next)
            && (forall k :: 2 <= k < |ps| ==> w[k] == c[k])
  {
    var ps := Pages(Load(files).log);
    NavAsWrittenGaps(ps);
    NavAsWrittenAgrees(ps);
  }

  lemma GenerateOk(log: seq<Placed>)
    ensures (forall k :: 0 <= k < |Pages(log)| ==> MonthOk(log, Pages(log)[k]))
            <==> forall i :: 0 <= i < |log| ==> !NoIdKey(log[i].entry)
  {
    if exists i :: 0 <= i < |log| && NoIdKey(log[i].entry) {
      var i :| 0 <= i < |log| && NoIdKey(log[i].entry);
      BadEntryBadMonth(log, i);
    } else {
      AllMonthsOk(log);
    }
  }

  /** A tweet without an `id` key spoils its month. */
  lemma BadEntryBadMonth(log: seq<Placed>, i: int)
    requires 0 <= i < |log| && NoIdKey(log[i].entry)
    ensures exists k :: 0 <= k < |Pages(log)| && !MonthOk(log, Pages(log)[k])
  {
    var ps := Pages(log);
    assert log[i].date in ps;
    var k :| 0 <= k < |ps| && ps[k] == log[i].date;
    var b := Bucket(log, ps[k]);
    assert log[i].entry in b;
    var j :| 0 <= j < |b| && b[j] == log[i].entry;
    assert NoIdKey(b[j]);
    assert !MonthOk(log, ps[k]);
  }

  lemma AllMonthsOk(log: seq<Placed>)
    requires forall i :: 0 <= i < |log| ==> !NoIdKey(log[i].entry)
    ensures forall k :: 0 <= k < |Pages(log)| ==> MonthOk(log, Pages(log)[k])
  {
    var ps := Pages(log);
    forall k | 0 <= k < |ps| ensures MonthOk(log, ps[k]) {
      var b := Bucket(log, ps[k]);
      forall j | 0 <= j < |b| ensures !NoIdKey(b[j]) {
        assert b[j] in b;
      }
    }
  }

  /** The tweets a step appends are the file's own. */
  lemma StepFull(c: Corpus, f: Option<Tweet>)
    ensures forall i :: |c.log| <= i < |Step(c, f).log| && Step(c, f).log[i].entry.Full? ==>
              f == Some(Step(c, f).log[i].entry.tweet)
  {
  }

  /** Every tweet in the corpus was read from one of the files. */
  lemma {:induction false} LoadFromFull(c: Corpus, files: seq<Option<Tweet>>)
    ensures var r := LoadFrom(c, files);
            forall i :: |c.log| <= i < |r.log| && r.log[i].entry.Full? ==>
              exists j :: 0 <= j < |files| && files[j] == Some(r.log[i].entry.tweet)
    decreases |files|
  {
    if |files| > 0 {
      var c1 := Step(c, files[0]);
      var r := LoadFrom(c, files);
      assert r == LoadFrom(c1, files[1..]);
      LoadFromFull(c1, files[1..]);
      StepFull(c, files[0]);
      forall i | |c.log| <= i < |r.log| && r.log[i].entry.Full?
        ensures exists j :: 0 <= j < |files| && files[j] == Some(r.log[i].entry.tweet)
      {
        if i < |c1.log| {
          assert r.log[i] == c1.log[i];
          assert files[0] == Some(r.log[i].entry.tweet);
        } else {
          var j :| 0 <= j < |files[1..]| && files[1..][j] == Some(r.log[i].entry.tweet);
          assert files[j + 1] == files[1..][j];
        }
      }
    }
  }

  /** A tweet file without an `id` key makes the whole gallery fail, when
      no file has a null id (the one tweet kept for the id None could
      otherwise be a null-id one). */
  lemma MissingIdFails(files: seq<Option<Tweet>>, k: int, corrected: bool)
    requires 0 <= k < |files| && files[k].Some? && files[k].value.key.NoId?
    requires forall j :: 0 <= j < |files| && files[j].Some? ==> !files[j].value.key.NullId?
    ensures Generate(files, corrected) == Err(KeyError("id"))
  {
    LoadIds(files);
    LoadFromFull(Empty, files);
    var log := Load(files).log;
    assert |Empty.log| == 0 && log == LoadFrom(Empty, files).log;
    var i :| 0 <= i < |log| && EntryId(log[i].entry) == None;
    assert log[i].entry.Full? && |Empty.log| <= i;
    var j :| 0 <= j < |files| && files[j] == Some(log[i].entry.tweet);
    assert NoIdKey(log[i].entry);
  }
}
