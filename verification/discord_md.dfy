/** The Discord transcript converter of tools/json_to_md.py: exported
    channel logs (JSON documents, one per channel) become a Markdown
    `discord` custom block, one dated section per day and channel, one
    labelled run per author. */
module DiscordMarkdown {
  import opened Wrappers
  import opened Json
  import Text
  import Grouping

  // ----------------------------------------------------------------- data

  datatype Author = Author(id: string, nickname: string, avatarUrl: string)

  datatype Attachment = Attachment(fileName: string, url: string)

  /** One exported message. `kind` is its `type` ("Default", "Reply",
      "RecipientAdd", ...), `reference` the id of the message a reply
      answers (None when the export has no `reference`), `channel` the id
      of the channel it was read from. */
  datatype Message = Message(id: string, kind: string, timestamp: string, author: Author, content: string,
                             reference: Option<string>, attachments: seq<Attachment>, mentions: seq<Author>,
                             channel: string)

  datatype Channel = Channel(id: string, name: string)

  /** One exported file: its channel and its messages. */
  datatype Document = Document(channel: Channel, messages: seq<Message>)

  /** The three switches at the top of the script, all off there. */
  datatype Quirks = Quirks(extraLabels: bool, trim: bool, noRepeatChannel: bool)

  const Defaults: Quirks := Quirks(false, false, false)

  /** The library calls the converter makes: `datetime` formatting of a
      timestamp, `textwrap.shorten(s, width=120)` and the `str` of the
      dictionary an unknown message is dumped as. */
  datatype Env = Env(time: (string, string) -> string, shorten: string -> string,
                     repr: (string, string, string) -> string)

  // ------------------------------------------------------------ the keys

  /** Python's `s[:n]`. */
  function Prefix(s: string, n: nat): (r: string)
    ensures |r| == if |s| < n then |s| else n
    ensures r == s[..|r|]
  {
    if |s| <= n then s else s[..n]
  }

  /** `keyfunc_timechangroup`: the day (the first ten characters of the
      timestamp) and the channel. */
  function DayChannel(m: Message): (string, string) {
    (Prefix(m.timestamp, 10), m.channel)
  }

  /** Python's order on pairs of strings: by the first, then the second. */
  predicate PairLe(x: (string, string), y: (string, string)) {
    (x.0 != y.0 && Grouping.StrLe(x.0, y.0)) || (x.0 == y.0 && Grouping.StrLe(x.1, y.1))
  }

  lemma PairOrder()
    ensures Grouping.TotalPreorder(PairLe)
    ensures forall x, y :: PairLe(x, y) && PairLe(y, x) ==> x == y
  {
    Grouping.StrOrder();
  }

  /** `keyfunc_authorgroup`: 'SYS' for a member being added, else the
      author's id. */
  function AuthorKey(m: Message): (r: string)
    ensures r == "SYS" <==> m.kind == "RecipientAdd" || m.author.id == "SYS"
    ensures m.kind != "RecipientAdd" ==> r == m.author.id
  {
    if m.kind == "RecipientAdd" then "SYS" else m.author.id
  }

  // ------------------------------------------------------------ the header

  /** The `avatar_<nickname>="<url>"` argument of one author. */
  function AvatarArg(a: Author): string {
    "avatar_" + a.nickname + "=\"" + a.avatarUrl + "\""
  }

  ghost predicate Distinct(xs: seq<string>) {
    forall i, j :: 0 <= i < j < |xs| ==> xs[i] != xs[j]
  }

  /** The elements of `xs`, each once, in order of first appearance. */
  function Dedup(xs: seq<string>): (r: seq<string>)
    ensures forall x :: x in r <==> x in xs
    ensures Distinct(r)
    decreases |xs|
  {
    if |xs| == 0 then []
    else
      var r := Dedup(xs[..|xs| - 1]);
      assert forall x :: x in xs <==> x in xs[..|xs| - 1] || x == xs[|xs| - 1];
      if xs[|xs| - 1] in r then r else r + [xs[|xs| - 1]]
  }

  lemma {:induction false} DistinctCount(xs: seq<string>, v: string)
    requires Distinct(xs)
    ensures multiset(xs)[v] <= 1
    decreases |xs|
  {
    if |xs| > 0 {
      var init := xs[..|xs| - 1];
      assert xs == init + [xs[|xs| - 1]];
      DistinctCount(init, v);
      if xs[|xs| - 1] == v {
        assert v !in init;
      }
    }
  }

  lemma CountTwo(ys: seq<string>, i: int, j: int)
    requires 0 <= i < j < |ys| && ys[i] == ys[j]
    ensures multiset(ys)[ys[i]] >= 2
  {
    assert ys == ys[..j] + [ys[j]] + ys[j + 1..];
    assert ys[i] in ys[..j];
  }

  /** A rearrangement of distinct strings is distinct. */
  lemma DistinctPerm(xs: seq<string>, ys: seq<string>)
    requires Distinct(xs) && multiset(xs) == multiset(ys)
    ensures Distinct(ys)
  {
    forall i, j | 0 <= i < j < |ys| ensures ys[i] != ys[j] {
      DistinctCount(xs, ys[i]);
      if ys[i] == ys[j] {
        CountTwo(ys, i, j);
      }
    }
  }

  function Self(s: string): string {
    s
  }

  function AvatarArgs(ms: seq<Message>): (r: seq<string>)
    ensures |r| == |ms| && forall k :: 0 <= k < |ms| ==> r[k] == AvatarArg(ms[k].author)
  {
    seq(|ms|, k requires 0 <= k < |ms| => AvatarArg(ms[k].author))
  }

  /** Sorting distinct strings gives them in strictly increasing order. */
  lemma SortDistinct(d: seq<string>)
    requires Distinct(d)
    ensures forall x :: x in Grouping.Sort(d, Self, Grouping.StrLe) <==> x in d
    ensures forall i, j :: 0 <= i < j < |Grouping.Sort(d, Self, Grouping.StrLe)| ==>
              && Grouping.StrLe(Grouping.Sort(d, Self, Grouping.StrLe)[i], Grouping.Sort(d, Self, Grouping.StrLe)[j])
              && Grouping.Sort(d, Self, Grouping.StrLe)[i] != Grouping.Sort(d, Self, Grouping.StrLe)[j]
  {
    var r := Grouping.Sort(d, Self, Grouping.StrLe);
    Grouping.SortPerm(d, Self, Grouping.StrLe);
    Grouping.StrOrder();
    Grouping.SortSorted(d, Self, Grouping.StrLe);
    DistinctPerm(d, r);
    assert forall x :: x in r <==> x in multiset(d);
  }

  /** `sorted({avatar args})`: every author's argument once, in increasing
      order. */
  function HeaderArgs(ms: seq<Message>): (r: seq<string>)
    ensures forall x :: x in r <==> exists k :: 0 <= k < |ms| && x == AvatarArg(ms[k].author)
    ensures forall i, j :: 0 <= i < j < |r| ==> Grouping.StrLe(r[i], r[j]) && r[i] != r[j]
  {
    var args := AvatarArgs(ms);
    var d := Dedup(args);
    assert forall x :: x in args <==> exists k :: 0 <= k < |ms| && x == AvatarArg(ms[k].author);
    SortDistinct(d);
    Grouping.Sort(d, Self, Grouping.StrLe)
  }

  /** Strictly increasing sequences with the same elements are equal: the
      header is the one `sorted` of the set gives. */
  lemma {:induction false} StrictlySortedUnique(a: seq<string>, b: seq<string>)
    requires forall i, j :: 0 <= i < j < |a| ==> Grouping.StrLe(a[i], a[j]) && a[i] != a[j]
    requires forall i, j :: 0 <= i < j < |b| ==> Grouping.StrLe(b[i], b[j]) && b[i] != b[j]
    requires forall x :: x in a <==> x in b
    ensures a == b
    decreases |a|
  {
    if |a| > 0 {
      assert a[0] in b;
    }
    if |b| > 0 {
      assert b[0] in a;
    }
    if |a| > 0 && |b| > 0 {
      var i :| 0 <= i < |b| && b[i] == a[0];
      var j :| 0 <= j < |a| && a[j] == b[0];
      if i > 0 && j > 0 {
        Grouping.StrLeAntisym(a[0], b[0]);
      }
      assert a[0] == b[0];
      forall x ensures x in a[1..] <==> x in b[1..] {
        if x in a[1..] {
          var k :| 1 <= k < |a| && a[k] == x;
          assert x != a[0];
          assert x in b;
        }
        if x in b[1..] {
          var k :| 1 <= k < |b| && b[k] == x;
          assert x != b[0];
          assert x in a;
        }
      }
      StrictlySortedUnique(a[1..], b[1..]);
      assert a == [a[0]] + a[1..] && b == [b[0]] + b[1..];
    }
  }

  /** `discordHeaderBlock`: the block opener with the avatar of every
      author of the messages. */
  function HeaderBlock(ms: seq<Message>): (r: string)
    ensures Text.StartsWith(r, "::: discord ")
    ensures r == "::: discord " + Text.Join(HeaderArgs(ms), " ")
  {
    "::: discord " + Text.Join(HeaderArgs(ms), " ")
  }

  // ----------------------------------------------------------- the replies

  /** The ids that replies refer to; a reply without a `reference` raises
      `KeyError`. */
  function RepliedIds(all: seq<Message>): (r: Outcome<seq<string>>)
    ensures r.Ok? <==> forall k :: 0 <= k < |all| && all[k].kind == "Reply" ==> all[k].reference.Some?
    ensures r.Err? ==> r.error == KeyError("reference")
    ensures r.Ok? ==> forall id :: id in r.value <==> exists k :: 0 <= k < |all| && all[k].kind == "Reply" && all[k].reference == Some(id)
    decreases |all|
  {
    if |all| == 0 then Ok([])
    else
      var m := all[0];
      assert forall k :: 1 <= k < |all| ==> all[1..][k - 1] == all[k];
      if m.kind == "Reply" && m.reference.None? then Err(KeyError("reference"))
      else
        var rest :- RepliedIds(all[1..]);
        Ok((if m.kind == "Reply" then [m.reference.value] else []) + rest)
  }

  /** `replied_to_messages`: every message whose id some reply refers to,
      by id. */
  function RepliedTo(all: seq<Message>, ids: seq<string>): (r: map<string, Message>)
    ensures forall id :: id in r <==> id in ids && exists k :: 0 <= k < |all| && all[k].id == id
    ensures forall id :: id in r ==> r[id].id == id && r[id] in all
    decreases |all|
  {
    if |all| == 0 then map[]
    else
      var init := all[..|all| - 1];
      var m := all[|all| - 1];
      assert forall k :: 0 <= k < |init| ==> init[k] == all[k];
      assert forall x :: x in all <==> x in init || x == m;
      var r := RepliedTo(init, ids);
      if m.id in ids then r[m.id := m] else r
  }

  /** Of messages sharing a referenced id, the last one is kept. */
  lemma {:induction false} RepliedToLast(all: seq<Message>, ids: seq<string>, k: int)
    requires 0 <= k < |all| && all[k].id in ids
    requires forall j :: k < j < |all| ==> all[j].id != all[k].id
    ensures all[k].id in RepliedTo(all, ids) && RepliedTo(all, ids)[all[k].id] == all[k]
    decreases |all|
  {
    if k < |all| - 1 {
      var init := all[..|all| - 1];
      assert init[k] == all[k];
      RepliedToLast(init, ids, k);
    }
  }

  // ---------------------------------------------------------- paragraphs

  /** Each piece of `pre + xs[0]`, `b + xs[1]`, ..., with `a` after every
      piece but the last. */
  function Decorate(xs: seq<string>, a: string, b: string, pre: string): (r: seq<string>)
    requires |xs| > 0
    ensures |r| == |xs|
    ensures r[0] == pre + xs[0] + (if |xs| > 1 then a else "")
    ensures forall k :: 0 < k < |xs| ==> r[k] == b + xs[k] + (if k < |xs| - 1 then a else "")
    decreases |xs|
  {
    if |xs| == 1 then [pre + xs[0]]
    else
      var rest := Decorate(xs[1..], a, b, b);
      assert forall k :: 1 < k < |xs| ==> rest[k - 1] == b + xs[k] + (if k < |xs| - 1 then a else "");
      [pre + xs[0] + a] + rest
  }

  /** Joining with `a + "\n" + b` is joining the decorated pieces with a
      newline. */
  lemma {:induction false} JoinDecorate(xs: seq<string>, a: string, b: string, pre: string)
    requires |xs| > 0
    ensures pre + Text.Join(xs, a + "\n" + b) == Text.Join(Decorate(xs, a, b, pre), "\n")
    decreases |xs|
  {
    if |xs| > 1 {
      JoinDecorate(xs[1..], a, b, b);
      var rest := Decorate(xs[1..], a, b, b);
      assert Decorate(xs, a, b, pre) == [pre + xs[0] + a] + rest;
      assert ([pre + xs[0] + a] + rest)[1..] == rest;
    }
  }

  /** The pieces of a split never hold the separator character. */
  lemma {:induction false} SplitPiecesFree(s: string, c: char)
    ensures forall k :: 0 <= k < |Text.Split(s, [c])| ==> c !in Text.Split(s, [c])[k]
    decreases |s|
  {
    if |s| >= 1 {
      SplitPiecesFree(s[1..], c);
      if s[..1] != [c] {
        assert s[0] != c;
      }
    }
  }

  /** A paragraph's lines, the first behind the bullet. */
  function Block(p: string): (r: seq<string>)
    ensures |r| == |Text.Split(p, "\n")| && r[0] == "    + " + Text.Split(p, "\n")[0]
    ensures forall k :: 0 < k < |r| ==> r[k] == Text.Split(p, "\n")[k]
  {
    var ls := Text.Split(p, "\n");
    ["    + " + ls[0]] + ls[1..]
  }

  /** One paragraph of a message as list lines: the first line opens a
      bullet, the others are indented under it, joined by `<br>`. */
  function ParagraphLines(p: string): seq<string> {
    var block := Block(p);
    if block == ["    + "] then [] else Text.Split(Text.Join(block, "<br>\n     "), "\n")
  }

  /** Only the empty paragraph gives the bare bullet. */
  lemma BlockBare(p: string)
    ensures Block(p) == ["    + "] <==> p == ""
  {
    var ls := Text.Split(p, "\n");
    Text.JoinSplit(p, "\n");
    if p == "" {
      assert ls == [""];
      assert "    + " + "" == "    + ";
      assert Block(p) == [Block(p)[0]];
    } else if |ls| == 1 {
      assert ls == [ls[0]];
      assert |Block(p)[0]| > 6;
    }
  }

  /** No line of a non-empty paragraph's block holds a newline once
      decorated. */
  lemma DecoratedFree(p: string)
    ensures forall k :: 0 <= k < |Block(p)| ==> '\n' !in Decorate(Block(p), "<br>", "     ", "")[k]
  {
    SplitPiecesFree(p, '\n');
  }

  lemma ParagraphDecorated(p: string)
    requires p != ""
    ensures ParagraphLines(p) == Decorate(Block(p), "<br>", "     ", "")
  {
    BlockBare(p);
    var block := Block(p);
    var d := Decorate(block, "<br>", "     ", "");
    JoinDecorate(block, "<br>", "     ", "");
    assert "<br>" + "\n" + "     " == "<br>\n     ";
    assert "" + Text.Join(block, "<br>\n     ") == Text.Join(block, "<br>\n     ");
    DecoratedFree(p);
    Text.SplitJoinChar(d, '\n');
  }

  /** What a paragraph becomes: nothing when it is empty; otherwise one line
      per line of it, the first behind the bullet `    + `, the others
      behind five spaces, all but the last ending in `<br>`. */
  lemma ParagraphShape(p: string)
    ensures ParagraphLines(p) == [] <==> p == ""
    ensures Text.Join(Text.Split(p, "\n"), "\n") == p
    ensures p != "" ==>
              var ls := Text.Split(p, "\n");
              var r := ParagraphLines(p);
              && |r| == |ls|
              && r[0] == "    + " + ls[0] + (if |ls| > 1 then "<br>" else "")
              && forall k :: 0 < k < |ls| ==> r[k] == "     " + ls[k] + (if k < |ls| - 1 then "<br>" else "")
  {
    BlockBare(p);
    Text.JoinSplit(p, "\n");
    if p != "" {
      ParagraphDecorated(p);
    }
  }

  /** The lines of a message's paragraphs, paragraph by paragraph. */
  function ParagraphsLines(ps: seq<string>): (r: seq<string>)
    ensures forall k :: 0 <= k < |ps| && ps[k] == "" ==> ParagraphLines(ps[k]) == []
    decreases |ps|
  {
    if |ps| == 0 then []
    else
      forall k | 0 <= k < |ps| { ParagraphShape(ps[k]); }
      ParagraphLines(ps[0]) + ParagraphsLines(ps[1..])
  }

  // ------------------------------------------------------------ messages

  function AttachmentLine(a: Attachment): string {
    "    + ![" + a.fileName + "](" + a.url + ")"
  }

  /** The quoted preview a reply opens with: the shortened text of the
      message it answers, or `???` when that message is not in the
      export. */
  function Preview(m: Message, replied: map<string, Message>, env: Env): (r: Outcome<seq<string>>)
    ensures m.kind != "Reply" ==> r == Ok([])
    ensures m.kind == "Reply" ==> (r.Err? <==> m.reference.None?)
    ensures r.Err? ==> r.error == KeyError("reference")
    ensures m.kind == "Reply" && r.Ok? ==>
              r.value == ["    + > " + (if m.reference.value in replied then env.shorten(replied[m.reference.value].content) else "???")]
  {
    if m.kind != "Reply" then Ok([])
    else if m.reference.None? then Err(KeyError("reference"))
    else if m.reference.value in replied then Ok(["    + > " + env.shorten(replied[m.reference.value].content)])
    else Ok(["    + > " + "???"])
  }

  /** One image line per attachment, in order. */
  function AttachmentLines(as_: seq<Attachment>): (r: seq<string>)
    ensures |r| == |as_| && forall k :: 0 <= k < |as_| ==> r[k] == "    + ![" + as_[k].fileName + "](" + as_[k].url + ")"
  {
    seq(|as_|, k requires 0 <= k < |as_| => AttachmentLine(as_[k]))
  }

  /** A post: its reply preview, its paragraphs, its attachments. */
  function PostLines(m: Message, replied: map<string, Message>, env: Env): (r: Outcome<seq<string>>)
    ensures r.Ok? <==> Preview(m, replied, env).Ok?
    ensures r.Ok? ==>
              var pre := Preview(m, replied, env).value;
              var atts := AttachmentLines(m.attachments);
              && |r.value| >= |pre| + |atts|
              && r.value[..|pre|] == pre
              && r.value[|r.value| - |atts|..] == atts
              && r.value[|pre|..|r.value| - |atts|] == ParagraphsLines(Text.Split(m.content, "\n\n"))
  {
    var pre :- Preview(m, replied, env);
    var body := ParagraphsLines(Text.Split(m.content, "\n\n"));
    var atts := AttachmentLines(m.attachments);
    assert (pre + body + atts)[..|pre|] == pre;
    assert (pre + body + atts)[|pre + body|..] == atts;
    assert (pre + body + atts)[|pre|..|pre + body|] == body;
    Ok(pre + body + atts)
  }

  predicate IsPost(m: Message) {
    m.kind == "Default" || m.kind == "Reply"
  }

  /** `messageToLines`. A post (plain or reply) becomes its lines; an added
      member one sentence (`IndexError` when nobody is mentioned); anything
      else an HTML comment. */
  function MessageLines(m: Message, replied: map<string, Message>, env: Env): (r: Outcome<seq<string>>)
    ensures IsPost(m) ==> r == PostLines(m, replied, env)
    ensures m.kind == "RecipientAdd" ==> (r.Err? <==> |m.mentions| == 0)
    ensures m.kind == "RecipientAdd" && r.Err? ==> r.error == Failure("IndexError")
    ensures m.kind == "RecipientAdd" && r.Ok? ==>
              r.value == ["    + " + m.author.nickname + " added " + m.mentions[0].nickname + " to the group."]
    ensures !IsPost(m) && m.kind != "RecipientAdd" ==>
              r == Ok(["<!-- " + env.repr(m.author.nickname, m.kind, m.content) + " -->"])
  {
    if IsPost(m) then PostLines(m, replied, env)
    else if m.kind == "RecipientAdd" then
      if |m.mentions| == 0 then Err(Failure("IndexError"))
      else Ok(["    + " + m.author.nickname + " added " + m.mentions[0].nickname + " to the group."])
    else Ok(["<!-- " + env.repr(m.author.nickname, m.kind, m.content) + " -->"])
  }

  /** Only a reply without its reference, or an added member with no one
      mentioned, stops the conversion. */
  lemma MessageFails(m: Message, replied: map<string, Message>, env: Env)
    ensures MessageLines(m, replied, env).Err? <==>
              (m.kind == "Reply" && m.reference.None?) || (m.kind == "RecipientAdd" && |m.mentions| == 0)
  {
  }

  /** The label opening an author's run. */
  function Label(m: Message, env: Env): string {
    (if m.kind == "RecipientAdd" then "- SYS" else "- " + m.author.nickname)
    + " <time datetime=\"" + m.timestamp + "\">" + env.time(m.timestamp, "%I:%M %p") + "</time>"
  }

  // -------------------------------------------------------------- labels

  /** For each message of the runs, whether it is labelled: the first of
      each run always, the others when `extra` holds. */
  function RunFlags<K, T>(runs: seq<Grouping.Group<K, T>>, extra: bool): (r: seq<bool>)
    requires forall g :: 0 <= g < |runs| ==> |runs[g].members| > 0
    ensures |r| == |Grouping.Flatten(runs)|
    decreases |runs|
  {
    if |runs| == 0 then []
    else [true] + seq(|runs[0].members| - 1, _ => extra) + RunFlags(runs[1..], extra)
  }

  /** Whether `f` flags exactly the positions of `xs` where the key
      changes (all of them with `extra`). */
  ghost predicate FlagsChanges<T, K>(f: seq<bool>, xs: seq<T>, key: T -> K, extra: bool) {
    |f| == |xs| && forall k :: 0 <= k < |xs| ==> (f[k] <==> extra || KeyChanges(xs, key, k))
  }

  /** The element at `k` opens a new run: it is the first, or its key
      differs from the previous one's. */
  ghost predicate KeyChanges<T, K>(xs: seq<T>, key: T -> K, k: int)
    requires 0 <= k < |xs|
  {
    k == 0 || key(xs[k - 1]) != key(xs[k])
  }

  /** Labelling runs of one author is labelling every message whose author
      differs from the previous message's (or every message, with extra
      labels). */
  lemma {:induction false} RunFlagsAtChanges<T, K>(xs: seq<T>, key: T -> K, extra: bool)
    ensures FlagsChanges(RunFlags(Grouping.GroupBy(xs, key), extra), xs, key, extra)
    decreases |xs|
  {
    if |xs| > 0 {
      var rest := Grouping.GroupBy(xs[1..], key);
      RunFlagsAtChanges(xs[1..], key, extra);
      if |rest| > 0 && rest[0].key == key(xs[0]) {
        FlagsMerge(xs, key, extra);
      } else {
        FlagsSplit(xs, key, extra);
      }
    }
  }

  lemma FlagsMerge<T, K>(xs: seq<T>, key: T -> K, extra: bool)
    requires |xs| > 0
    requires var rest := Grouping.GroupBy(xs[1..], key); |rest| > 0 && rest[0].key == key(xs[0])
    requires FlagsChanges(RunFlags(Grouping.GroupBy(xs[1..], key), extra), xs[1..], key, extra)
    ensures FlagsChanges(RunFlags(Grouping.GroupBy(xs, key), extra), xs, key, extra)
  {
    var rest := Grouping.GroupBy(xs[1..], key);
    var fr := RunFlags(rest, extra);
    var g0 := Grouping.Group(key(xs[0]), [xs[0]] + rest[0].members);
    assert Grouping.GroupBy(xs, key) == [g0] + rest[1..];
    assert ([g0] + rest[1..])[1..] == rest[1..];
    var tail := RunFlags(rest[1..], extra);
    var f := [true] + seq(|rest[0].members|, _ => extra) + tail;
    assert RunFlags(Grouping.GroupBy(xs, key), extra) == f;
    assert fr == [true] + seq(|rest[0].members| - 1, _ => extra) + tail;
    ShiftedFlags(|rest[0].members|, tail, extra);
    assert key(xs[1]) == rest[0].key;
    forall k | 0 <= k < |xs| ensures f[k] <==> extra || KeyChanges(xs, key, k) {
      if k > 1 {
        assert xs[1..][k - 2] == xs[k - 1] && xs[1..][k - 1] == xs[k];
        assert KeyChanges(xs[1..], key, k - 1) == KeyChanges(xs, key, k);
      }
    }
  }

  lemma FlagsSplit<T, K>(xs: seq<T>, key: T -> K, extra: bool)
    requires |xs| > 0
    requires var rest := Grouping.GroupBy(xs[1..], key); !(|rest| > 0 && rest[0].key == key(xs[0]))
    requires FlagsChanges(RunFlags(Grouping.GroupBy(xs[1..], key), extra), xs[1..], key, extra)
    ensures FlagsChanges(RunFlags(Grouping.GroupBy(xs, key), extra), xs, key, extra)
  {
    var rest := Grouping.GroupBy(xs[1..], key);
    var fr := RunFlags(rest, extra);
    var g0 := Grouping.Group(key(xs[0]), [xs[0]]);
    assert Grouping.GroupBy(xs, key) == [g0] + rest;
    assert ([g0] + rest)[1..] == rest;
    var f := [true] + fr;
    assert RunFlags(Grouping.GroupBy(xs, key), extra) == f;
    forall k | 0 <= k < |xs| ensures f[k] <==> extra || KeyChanges(xs, key, k) {
      if k == 1 {
        assert key(xs[1]) == rest[0].key;
      } else if k > 1 {
        assert xs[1..][k - 2] == xs[k - 1] && xs[1..][k - 1] == xs[k];
        assert KeyChanges(xs[1..], key, k - 1) == KeyChanges(xs, key, k);
      }
    }
  }

  /** A run one longer shifts the later flags by one. */
  lemma ShiftedFlags(n: nat, tail: seq<bool>, extra: bool)
    requires n > 0
    ensures var f := [true] + seq(n, _ => extra) + tail;
            var fr := [true] + seq(n - 1, _ => extra) + tail;
            f[1] == extra && forall k :: 1 < k < |f| ==> f[k] == fr[k - 1]
  {
  }

  // ------------------------------------------------------- the day groups

  /** The lines of a day's messages: each message, behind its label when
      it is flagged. */
  function BodyLines(ms: seq<Message>, flags: seq<bool>, replied: map<string, Message>, env: Env): (r: Outcome<seq<string>>)
    requires |flags| == |ms|
    ensures r.Ok? <==> forall k :: 0 <= k < |ms| ==> MessageLines(ms[k], replied, env).Ok?
    ensures r.Ok? && |ms| > 0 ==>
              var head := (if flags[0] then [Label(ms[0], env)] else []) + MessageLines(ms[0], replied, env).value;
              |head| <= |r.value| && r.value[..|head|] == head
    decreases |ms|
  {
    if |ms| == 0 then Ok([])
    else
      assert forall k :: 1 <= k < |ms| ==> ms[1..][k - 1] == ms[k];
      var lines :- MessageLines(ms[0], replied, env);
      var rest :- BodyLines(ms[1..], flags[1..], replied, env);
      var head := (if flags[0] then [Label(ms[0], env)] else []) + lines;
      assert (head + rest)[..|head|] == head;
      Ok(head + rest)
  }

  function TimeLine(m: Message, chanstr: string, env: Env): string {
    "<time timestamp=\"" + m.timestamp + "\">" + env.time(m.timestamp, "%B %d, %Y") + chanstr + "</time>"
  }

  /** The labels of a day: runs of one author, not re-sorted. */
  function Flags(g: seq<Message>, q: Quirks): (r: seq<bool>)
    ensures |r| == |g|
    ensures forall k :: 0 <= k < |g| ==> (r[k] <==> q.extraLabels || KeyChanges(g, AuthorKey, k))
  {
    RunFlagsAtChanges(g, AuthorKey, q.extraLabels);
    RunFlags(Grouping.GroupBy(g, AuthorKey), q.extraLabels)
  }

  /** Two messages in a row from one author share a label; the next
      author gets a new one. With extra labels, every message has one. */
  lemma LabelsPerRun(a: Message, b: Message, c: Message)
    requires AuthorKey(a) == AuthorKey(b) && AuthorKey(b) != AuthorKey(c)
    ensures Flags([a, b, c], Defaults) == [true, false, true]
    ensures Flags([a, b, c], Quirks(true, false, false)) == [true, true, true]
  {
    var g := [a, b, c];
    assert KeyChanges(g, AuthorKey, 0) && !KeyChanges(g, AuthorKey, 1) && KeyChanges(g, AuthorKey, 2);
  }

  /** A day's lines before printing: the date line, a blank (None), the
      messages, and an empty line. */
  function GroupLines(g: seq<Message>, chanstr: string, q: Quirks, replied: map<string, Message>, env: Env): (r: Outcome<seq<Option<string>>>)
    requires |g| > 0
    ensures r.Ok? <==> forall k :: 0 <= k < |g| ==> MessageLines(g[k], replied, env).Ok?
    ensures r.Ok? ==> |r.value| >= 3 && r.value[0] == Some(TimeLine(g[0], chanstr, env)) && r.value[1] == None
                      && r.value[|r.value| - 1] == Some("")
  {
    var body :- BodyLines(g, Flags(g, q), replied, env);
    Ok([Some(TimeLine(g[0], chanstr, env)), None] + seq(|body|, k requires 0 <= k < |body| => Some(body[k])) + [Some("")])
  }

  /** `print("    " + line)`, a None printed as an empty line when
      trimming and as the indent alone otherwise. */
  function Printed(lines: seq<Option<string>>, trim: bool): (r: seq<string>)
    ensures |r| == |lines|
    ensures forall k :: 0 <= k < |lines| && lines[k].Some? ==> r[k] == "    " + lines[k].value
    ensures forall k :: 0 <= k < |lines| && lines[k].None? ==> r[k] == (if trim then "" else "    ")
    ensures !trim ==> forall k :: 0 <= k < |r| ==> Text.StartsWith(r[k], "    ")
  {
    seq(|lines|, k requires 0 <= k < |lines| => if lines[k].Some? then "    " + lines[k].value else if trim then "" else "    ")
  }

  /** The day groups in order, each headed by a channel block when the
      channel changes and there is more than one channel. */
  function RenderGroups(gs: seq<Grouping.Group<(string, string), Message>>, last: Option<string>, channels: map<string, Channel>,
                        q: Quirks, replied: map<string, Message>, env: Env): (r: Outcome<seq<string>>)
    requires forall g :: 0 <= g < |gs| ==> |gs[g].members| > 0
    ensures |channels| <= 1 && r.Ok? ==> forall k :: 0 <= k < |r.value| && !q.trim ==> Text.StartsWith(r.value[k], "    ")
    decreases |gs|
  {
    if |gs| == 0 then Ok([])
    else
      var g := gs[0].members;
      var chan := g[0].channel;
      var opening := |channels| > 1 && last != Some(chan) && !q.noRepeatChannel;
      var header := if opening then [HeaderBlock(g)] else [];
      if opening && chan !in channels then Err(KeyError(chan))
      else
        var chanstr := if opening then ", " + channels[chan].name else "";
        var lines :- GroupLines(g, chanstr, q, replied, env);
        var rest :- RenderGroups(gs[1..], Some(chan), channels, q, replied, env);
        var printed := Printed(lines, q.trim);
        IndentedJoin(printed, rest, |channels| <= 1 && !q.trim);
        Ok(header + printed + rest)
  }

  /** Two runs of indented lines join into one. */
  lemma IndentedJoin(a: seq<string>, b: seq<string>, on: bool)
    requires on ==> forall k :: 0 <= k < |a| ==> Text.StartsWith(a[k], "    ")
    requires on ==> forall k :: 0 <= k < |b| ==> Text.StartsWith(b[k], "    ")
    ensures on ==> forall k :: 0 <= k < |a + b| ==> Text.StartsWith((a + b)[k], "    ")
  {
    if on {
      forall k | 0 <= k < |a + b|
        ensures Text.StartsWith((a + b)[k], "    ")
      {
        if k < |a| { assert (a + b)[k] == a[k]; } else { assert (a + b)[k] == b[k - |a|]; }
      }
    }
  }

  // ---------------------------------------------------------- the whole

  /** `channels`: each document's channel by id; of documents sharing an
      id, the last one. */
  function ChannelMap(docs: seq<Document>): (r: map<string, Channel>)
    ensures forall id :: id in r <==> exists k :: 0 <= k < |docs| && docs[k].channel.id == id
    decreases |docs|
  {
    if |docs| == 0 then map[]
    else
      var init := docs[..|docs| - 1];
      assert forall k :: 0 <= k < |init| ==> init[k] == docs[k];
      ChannelMap(init)[docs[|docs| - 1].channel.id := docs[|docs| - 1].channel]
  }

  /** `all_messages`: every document's messages in order, each marked with
      its document's channel id. */
  function AllMessages(docs: seq<Document>): (r: seq<Message>)
    ensures forall i :: 0 <= i < |r| ==> exists k :: 0 <= k < |docs| && r[i].channel == docs[k].channel.id
    decreases |docs|
  {
    if |docs| == 0 then []
    else
      var d := docs[0];
      var here := seq(|d.messages|, k requires 0 <= k < |d.messages| => d.messages[k].(channel := d.channel.id));
      var rest := AllMessages(docs[1..]);
      assert forall i :: 0 <= i < |rest| ==> exists k :: 1 <= k < |docs| && rest[i].channel == docs[k].channel.id by {
        forall i | 0 <= i < |rest| ensures exists k :: 1 <= k < |docs| && rest[i].channel == docs[k].channel.id {
          var k :| 0 <= k < |docs[1..]| && rest[i].channel == docs[1..][k].channel.id;
          assert docs[1..][k] == docs[k + 1];
        }
      }
      here + rest
  }

  /** The messages grouped by day and channel, after sorting on that key. */
  function DayGroups(all: seq<Message>): (gs: seq<Grouping.Group<(string, string), Message>>)
    ensures forall g :: 0 <= g < |gs| ==> |gs[g].members| > 0
    ensures Grouping.Flatten(gs) == Grouping.Sort(all, DayChannel, PairLe)
  {
    Grouping.GroupBy(Grouping.Sort(all, DayChannel, PairLe), DayChannel)
  }

  /** Every message lands in exactly the day group of its day and channel,
      and each day and channel has one group, in increasing order. */
  lemma DayGroupsShape(all: seq<Message>)
    ensures var gs := DayGroups(all);
            && multiset(Grouping.Flatten(gs)) == multiset(all)
            && (forall g, m :: 0 <= g < |gs| && 0 <= m < |gs[g].members| ==> DayChannel(gs[g].members[m]) == gs[g].key)
            && (forall g, h :: 0 <= g < h < |gs| ==> PairLe(gs[g].key, gs[h].key) && gs[g].key != gs[h].key)
  {
    var sorted := Grouping.Sort(all, DayChannel, PairLe);
    Grouping.SortPerm(all, DayChannel, PairLe);
    PairOrder();
    Grouping.SortSorted(all, DayChannel, PairLe);
    Grouping.GroupKeysSorted(sorted, DayChannel, PairLe);
    Grouping.GroupSortedDistinct(sorted, DayChannel, PairLe);
  }

  /** `formatDocuments`: the printed lines. */
  function FormatDocuments(docs: seq<Document>, q: Quirks, env: Env): (r: Outcome<seq<string>>)
    ensures RepliedIds(AllMessages(docs)).Err? ==> r == Err(KeyError("reference"))
    ensures r.Ok? && q.noRepeatChannel ==> |r.value| > 0 && r.value[0] == HeaderBlock(AllMessages(docs))
    ensures r.Ok? && !q.noRepeatChannel && |ChannelMap(docs)| <= 1 && !q.trim ==>
              forall k :: 0 <= k < |r.value| ==> Text.StartsWith(r.value[k], "    ")
  {
    var channels := ChannelMap(docs);
    var all := AllMessages(docs);
    var ids :- RepliedIds(all);
    var replied := RepliedTo(all, ids);
    var pre := if q.noRepeatChannel then [HeaderBlock(all)] else [];
    var body :- RenderGroups(DayGroups(all), None, channels, q, replied, env);
    Ok(pre + body)
  }
}
