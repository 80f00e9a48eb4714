/** The custom block generators of gio_customblocks.py: `aside`,
    `blockquote`, `spoiler`, `imessage` and `discord`. Each turns the
    block's positional arguments into class slugs; the chat blocks then
    rework the items of the lists in the block's rendered Markdown. The
    element builder (`customblocks.utils.E`) and the Markdown renderer are
    not part of this model: an element is a record of what the generators
    put into it. */
module CustomBlocks {
  import opened Wrappers
  import opened Json
  import Text

  // ---------------------------------------------------------------- slugs

  /** `'-'.join(arg.split())`: the argument's words joined by dashes. */
  function Slug(arg: string): (r: string)
    ensures forall i :: 0 <= i < |r| ==> !Text.IsSpace(r[i])
  {
    var ws := Text.Words(arg);
    WordsNoSpace(arg);
    NoSpaceJoin(ws);
    Text.Join(ws, "-")
  }

  lemma {:induction false} WordsNoSpace(s: string)
    ensures forall k :: 0 <= k < |Text.Words(s)| ==> forall i :: 0 <= i < |Text.Words(s)[k]| ==> !Text.IsSpace(Text.Words(s)[k][i])
    decreases |s|
  {
    if |s| > 0 {
      if Text.IsSpace(s[0]) {
        WordsNoSpace(s[1..]);
      } else {
        var w := Text.WordAt(s);
        WordsNoSpace(s[|w|..]);
        assert Text.Words(s) == [w] + Text.Words(s[|w|..]);
      }
    }
  }

  lemma {:induction false} NoSpaceJoin(ws: seq<string>)
    requires forall k :: 0 <= k < |ws| ==> forall i :: 0 <= i < |ws[k]| ==> !Text.IsSpace(ws[k][i])
    ensures forall i :: 0 <= i < |Text.Join(ws, "-")| ==> !Text.IsSpace(Text.Join(ws, "-")[i])
    decreases |ws|
  {
    if |ws| > 1 {
      NoSpaceJoin(ws[1..]);
      var j := Text.Join(ws[1..], "-");
      assert Text.Join(ws, "-") == ws[0] + "-" + j;
      forall i | 0 <= i < |ws[0] + "-" + j|
        ensures !Text.IsSpace((ws[0] + "-" + j)[i])
      {
        if i > |ws[0]| {
          assert (ws[0] + "-" + j)[i] == j[i - |ws[0]| - 1];
        }
      }
    }
  }

  /** Words without dashes can be read back from the slug. */
  lemma SlugWords(arg: string)
    requires |Text.Words(arg)| > 0
    requires forall k :: 0 <= k < |Text.Words(arg)| ==> '-' !in Text.Words(arg)[k]
    ensures Text.Split(Slug(arg), "-") == Text.Words(arg)
  {
    Text.SplitJoinChar(Text.Words(arg), '-');
  }

  /** An argument that is one word is its own slug. */
  lemma {:induction false} OneWordSlug(arg: string)
    requires |arg| > 0 && forall i :: 0 <= i < |arg| ==> !Text.IsSpace(arg[i])
    ensures Slug(arg) == arg
  {
    var w := Text.WordAt(arg);
    assert |w| == |arg|;
    assert w == arg;
    assert arg[|w|..] == [];
    assert Text.Words(arg) == [arg];
  }

  function Slugs(args: seq<string>): (r: seq<string>)
    ensures |r| == |args| && forall k :: 0 <= k < |args| ==> r[k] == Slug(args[k])
  {
    seq(|args|, k requires 0 <= k < |args| => Slug(args[k]))
  }

  // -------------------------------------------------------------- elements

  /** A child of a list item: the author span the `imessage` block inserts,
      or any other rendered node. */
  datatype Child = AuthorSpan(author: string) | Node(html: string)

  /** A list item `li`: its text (None when it starts with an element), its
      attributes and its child elements. */
  datatype Item = Item(text: Option<string>, attrs: map<string, string>, children: seq<Child>)

  /** A top-level piece of the block's rendered Markdown: a `ul` list, or
      any other element. */
  datatype Part = List(items: seq<Item>) | Other(html: string)

  /** The `imessage` header: the avatar image and the name, each present
      only when given and non-empty. */
  datatype Header = Header(image: Option<string>, name: Option<string>)

  /** An element a generator returns: its selector (tag and classes), its
      attributes, the keyword arguments passed on as attributes, an
      optional header and the rendered content. */
  datatype Block = Block(selector: string, attrs: map<string, string>, kwargs: map<string, string>, header: Option<Header>, body: seq<Part>)

  predicate Truthy(s: Option<string>) {
    s.Some? && |s.value| > 0
  }

  /** `cb_aside`: `None` for a missing title is formatted into the
      selector as the text "None". */
  function Aside(title: Option<string>, args: seq<string>, kwargs: map<string, string>, body: seq<Part>): (b: Block)
    ensures b.attrs == map["_class" := Text.Join(Slugs(args), " ")] && b.kwargs == kwargs && b.body == body
    ensures title.Some? ==> b.selector == "aside.cb." + title.value
    ensures title.None? ==> b.selector == "aside.cb.None"
  {
    Block("aside.cb." + (if title.Some? then title.value else "None"), map["_class" := Text.Join(Slugs(args), " ")], kwargs, None, body)
  }

  /** `cb_blockquote`. */
  function Quote(args: seq<string>, kwargs: map<string, string>, body: seq<Part>): (b: Block)
    ensures b.selector == "blockquote" && b.attrs == map["class" := Text.Join(Slugs(args), " ")]
    ensures b.kwargs == kwargs && b.body == body && b.header.None?
  {
    Block("blockquote", map["class" := Text.Join(Slugs(args), " ")], kwargs, None, body)
  }

  /** `cb_spoiler`: the button labelled with the description, the content
      in the box under it. */
  function Spoiler(desc: Option<string>, args: seq<string>, kwargs: map<string, string>, body: seq<Part>): (b: Block)
    ensures b.selector == "div.spoiler-wrapper" && b.attrs == map["_class" := Text.Join(Slugs(args), " ")]
    ensures b.header == Some(Header(None, desc)) && b.body == body && b.kwargs == kwargs
  {
    Block("div.spoiler-wrapper", map["_class" := Text.Join(Slugs(args), " ")], kwargs, Some(Header(None, desc)), body)
  }

  /** Apply an item rewrite to every item of every list, in order; the
      first failure ends the block. */
  function MapItems(parts: seq<Part>, f: Item -> Outcome<Item>): (r: Outcome<seq<Part>>)
    ensures r.Ok? <==> forall p, k :: 0 <= p < |parts| && parts[p].List? && 0 <= k < |parts[p].items| ==> f(parts[p].items[k]).Ok?
    ensures r.Err? ==> exists p, k :: 0 <= p < |parts| && parts[p].List? && 0 <= k < |parts[p].items| && f(parts[p].items[k]) == Err(r.error)
    ensures r.Ok? ==> |r.value| == |parts|
    ensures r.Ok? ==> forall p :: 0 <= p < |parts| ==>
              && (parts[p].Other? ==> r.value[p] == parts[p])
              && (parts[p].List? ==>
                    && r.value[p].List? && |r.value[p].items| == |parts[p].items|
                    && forall k :: 0 <= k < |parts[p].items| ==> r.value[p].items[k] == f(parts[p].items[k]).value)
    decreases |parts|
  {
    if |parts| == 0 then Ok([])
    else
      var head: Outcome<Part> :=
        if parts[0].Other? then Ok(parts[0])
        else
          var l := MapList(parts[0].items, f);
          if l.Err? then Err(l.error) else Ok(List(l.value));
      var rest := MapItems(parts[1..], f);
      assert forall p :: 1 <= p < |parts| ==> parts[p] == parts[1..][p - 1];
      if head.Err? then Err(head.error)
      else if rest.Err? then Err(rest.error)
      else Ok([head.value] + rest.value)
  }

  function MapList(items: seq<Item>, f: Item -> Outcome<Item>): (r: Outcome<seq<Item>>)
    ensures r.Ok? <==> forall k :: 0 <= k < |items| ==> f(items[k]).Ok?
    ensures r.Err? ==> exists k :: 0 <= k < |items| && f(items[k]) == Err(r.error)
    ensures r.Ok? ==> |r.value| == |items| && forall k :: 0 <= k < |items| ==> r.value[k] == f(items[k]).value
    decreases |items|
  {
    if |items| == 0 then Ok([])
    else
      var rest := MapList(items[1..], f);
      assert forall k :: 1 <= k < |items| ==> items[k] == items[1..][k - 1];
      match f(items[0])
      case Err(e) => Err(e)
      case Ok(it) => if rest.Err? then Err(rest.error) else Ok([it] + rest.value)
  }

  // -------------------------------------------------------------- imessage

  const Anonymous: seq<string> := ["you", "them"]

  /** One author group of an `imessage` block. An item without text makes
      `author.lower()` raise `AttributeError`. */
  function MessageItem(it: Item): (r: Outcome<Item>)
    ensures it.text.None? <==> r == Err(AttributeError)
    ensures it.text.Some? ==>
              var lowered := Text.Lower(it.text.value);
              && r.Ok? && r.value.text == Some("")
              && r.value.attrs == it.attrs["data-author" := lowered]
              && (lowered in Anonymous ==> r.value.children == it.children)
              && (lowered !in Anonymous ==> r.value.children == [AuthorSpan(it.text.value)] + it.children)
  {
    match it.text
    case None => Err(AttributeError)
    case Some(author) =>
      var lowered := Text.Lower(author);
      var children := if lowered !in Anonymous then [AuthorSpan(author)] + it.children else it.children;
      Ok(Item(Some(""), it.attrs["data-author" := lowered], children))
  }

  /** `cb_imessage`. */
  function IMessage(name: Option<string>, image: Option<string>, args: seq<string>, kwargs: map<string, string>, body: seq<Part>): (r: Outcome<Block>)
    ensures r.Ok? <==> forall p, k :: 0 <= p < |body| && body[p].List? && 0 <= k < |body[p].items| ==> body[p].items[k].text.Some?
    ensures r.Err? ==> r.error == AttributeError
    ensures r.Ok? ==>
              && r.value.attrs == map["class" := Text.Join(["imessage"] + Slugs(args), " ")]
              && (r.value.header.Some? <==> Truthy(image) || Truthy(name))
              && (r.value.header.Some? ==> (r.value.header.value.image.Some? <==> Truthy(image)) && (r.value.header.value.name.Some? <==> Truthy(name)))
  {
    var header := if Truthy(image) || Truthy(name) then Some(Header(if Truthy(image) then image else None, if Truthy(name) then name else None)) else None;
    match MapItems(body, MessageItem)
    case Err(e) => Err(e)
    case Ok(parts) => Ok(Block("blockquote", map["class" := Text.Join(["imessage"] + Slugs(args), " ")], kwargs, header, parts))
  }

  /** Every author group of a finished `imessage` block has lost its text
      and carries its lowered author; the named ones lead with an author
      span. */
  lemma IMessageItems(name: Option<string>, image: Option<string>, args: seq<string>, kwargs: map<string, string>, body: seq<Part>)
    requires IMessage(name, image, args, kwargs, body).Ok?
    ensures var b := IMessage(name, image, args, kwargs, body).value;
            && |b.body| == |body|
            && forall p, k :: 0 <= p < |body| && body[p].List? && 0 <= k < |body[p].items| ==>
                 && b.body[p].List? && k < |b.body[p].items|
                 && b.body[p].items[k].text == Some("")
                 && b.body[p].items[k].attrs["data-author"] == Text.Lower(body[p].items[k].text.value)
                 && (|b.body[p].items[k].children| > 0 && b.body[p].items[k].children[0] == AuthorSpan(body[p].items[k].text.value)
                     <== Text.Lower(body[p].items[k].text.value) !in Anonymous)
  {
  }

  // --------------------------------------------------------------- discord

  /** The keyword arguments a `discord` block passes on as attributes:
      those not naming a role colour or an avatar. */
  function PassThrough(kwargs: map<string, string>): (r: map<string, string>)
    ensures forall k :: k in r <==> k in kwargs && !Text.StartsWith(k, "color_") && !Text.StartsWith(k, "avatar_")
    ensures forall k :: k in r ==> r[k] == kwargs[k]
  {
    map k | k in kwargs && !Text.StartsWith(k, "color_") && !Text.StartsWith(k, "avatar_") :: kwargs[k]
  }

  /** The value `dict.get` finds for a key, as an optional string. */
  function Get(kwargs: map<string, string>, k: string): Option<string> {
    if k in kwargs then Some(kwargs[k]) else None
  }

  /** An author's style: the role colour, then the avatar, each only when
      set and non-empty; looked up under the author text as written. */
  function Style(kwargs: map<string, string>, author: string): (r: string)
    ensures r == "" <==> !Truthy(Get(kwargs, "color_" + author)) && !Truthy(Get(kwargs, "avatar_" + author))
    ensures Truthy(Get(kwargs, "color_" + author)) ==> Text.StartsWith(r, "--role-color: " + kwargs["color_" + author] + "; ")
    ensures !Truthy(Get(kwargs, "color_" + author)) && Truthy(Get(kwargs, "avatar_" + author)) ==> r == "--icon: url(" + kwargs["avatar_" + author] + "); "
  {
    var color := Get(kwargs, "color_" + author);
    var avatar := Get(kwargs, "avatar_" + author);
    var c := if Truthy(color) then "--role-color: " + color.value + "; " else "";
    var a := if Truthy(avatar) then "--icon: url(" + avatar.value + "); " else "";
    assert (c + a)[..|c|] == c;
    c + a
  }

  /** One author group of a `discord` block. */
  function DiscordItem(kwargs: map<string, string>, it: Item): (r: Outcome<Item>)
    ensures it.text.None? <==> r == Err(AttributeError)
    ensures it.text.Some? ==>
              var style := Style(kwargs, it.text.value);
              && r.Ok? && r.value.text == it.text && r.value.children == it.children
              && r.value.attrs == (if style == "" then it.attrs["data-author" := Text.Lower(it.text.value)]
                                  else it.attrs["data-author" := Text.Lower(it.text.value)]["style" := style])
  {
    match it.text
    case None => Err(AttributeError)
    case Some(author) =>
      var attrs := it.attrs["data-author" := Text.Lower(author)];
      var style := Style(kwargs, author);
      Ok(it.(attrs := if style != "" then attrs["style" := style] else attrs))
  }

  /** `cb_discord`. The `name` and `image` arguments are accepted and not
      used. */
  function Discord(name: Option<string>, image: Option<string>, args: seq<string>, kwargs: map<string, string>, body: seq<Part>): (r: Outcome<Block>)
    ensures r.Ok? <==> forall p, k :: 0 <= p < |body| && body[p].List? && 0 <= k < |body[p].items| ==> body[p].items[k].text.Some?
    ensures r.Err? ==> r.error == AttributeError
    ensures r.Ok? ==> r.value.kwargs == PassThrough(kwargs) && r.value.header.None?
    ensures r.Ok? ==> r.value.attrs == map["class" := Text.Join(["discord"] + Slugs(args), " ")]
  {
    match MapItems(body, it => DiscordItem(kwargs, it))
    case Err(e) => Err(e)
    case Ok(parts) => Ok(Block("blockquote", map["class" := Text.Join(["discord"] + Slugs(args), " ")], PassThrough(kwargs), None, parts))
  }

  /** The name and image given to a `discord` block change nothing. */
  lemma DiscordIgnoresNameImage(n1: Option<string>, i1: Option<string>, n2: Option<string>, i2: Option<string>,
                                args: seq<string>, kwargs: map<string, string>, body: seq<Part>)
    ensures Discord(n1, i1, args, kwargs, body) == Discord(n2, i2, args, kwargs, body)
  {
  }

  /** The colour is looked up under the author as written, while
      `data-author` is lowered: a colour keyed by the lowered name does not
      apply to a capitalised author. */
  lemma ColourKeyIsCaseSensitive()
    ensures var kwargs := map["color_ann" := "red"];
            var it := Item(Some("Ann"), map[], []);
            && DiscordItem(kwargs, it).value.attrs == map["data-author" := "ann"]
  {
    var kwargs := map["color_ann" := "red"];
    assert "color_" + "Ann" != "color_ann" by {
      assert ("color_" + "Ann")[6] == 'A';
    }
    assert Get(kwargs, "color_" + "Ann") == None;
    assert Get(kwargs, "avatar_" + "Ann") == None;
    assert Text.Lower("Ann") == "ann";
  }
}
