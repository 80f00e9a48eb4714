/** The parsed view of an article body that the content plugins inspect
    through BeautifulSoup: its text, its `<a>` elements with their `href`
    and `class` attributes, and the `id` attributes of its elements. Parsing
    and re-serialising HTML are not modelled: a body is given in this form. */
module Html {
  import opened Wrappers
  import Text

  /** An `<a>` element: its `href` (absent or a value), its classes (the
      multi-valued `class` attribute, empty when absent) and its text. */
  datatype Anchor = Anchor(href: Option<string>, classes: seq<string>, text: string)

  /** A parsed body: the strings of its text nodes in document order,
      every `<a>` in document order, and the value of every `id`
      attribute. `soup.text` is the strings run together. */
  datatype Body = Body(strings: seq<string>, anchors: seq<Anchor>, ids: seq<string>)
  {
    const text: string := Concat(strings)
  }

  function Concat(ss: seq<string>): string
    decreases |ss|
  {
    if |ss| == 0 then "" else ss[0] + Concat(ss[1..])
  }

  /** The strings `get_text(sep, strip=True)` keeps: each one stripped,
      the ones left empty dropped. */
  function StrippedStrings(ss: seq<string>): (r: seq<string>)
    ensures |r| <= |ss|
    ensures forall k :: 0 <= k < |r| ==> |r[k]| > 0
    decreases |ss|
  {
    if |ss| == 0 then []
    else
      var h := Text.Strip(ss[0]);
      var rest := StrippedStrings(ss[1..]);
      if |h| == 0 then rest else [h] + rest
  }

  /** `get_text(sep, strip=True)`: the kept strings joined by `sep`. */
  function GetText(ss: seq<string>, sep: string): string {
    Text.Join(StrippedStrings(ss), sep)
  }

  /** The words of each string, one string after another. */
  function WordsEach(ss: seq<string>): seq<string>
    decreases |ss|
  {
    if |ss| == 0 then [] else Text.Words(ss[0]) + WordsEach(ss[1..])
  }

  /** Joined by a space, no string's last word runs into the next
      string's first: the text holds exactly the strings' words, in
      order. */
  lemma {:induction false} GetTextWords(ss: seq<string>)
    ensures Text.Words(GetText(ss, " ")) == WordsEach(ss)
    decreases |ss|
  {
    if |ss| > 0 {
      var h := Text.Strip(ss[0]);
      var rest := StrippedStrings(ss[1..]);
      GetTextWords(ss[1..]);
      Text.WordsStrip(ss[0]);
      assert Text.Words(GetText(ss[1..], " ")) == WordsEach(ss[1..]);
      assert WordsEach(ss) == Text.Words(h) + WordsEach(ss[1..]);
      if h == "" {
        assert StrippedStrings(ss) == rest;
        assert Text.Words(h) == [];
      } else {
        var ps := [h] + rest;
        assert StrippedStrings(ss) == ps && ps[1..] == rest;
        if |rest| > 0 {
          assert Text.Join(ps, " ") == h + " " + Text.Join(rest, " ");
          Text.WordsSpace(h, Text.Join(rest, " "));
        } else {
          assert Text.Join(ps, " ") == h;
          assert WordsEach(ss[1..]) == [];
        }
      }
    }
  }

  /** `soup.text` runs the strings of `<p>a</p><p>b</p>` together, where
      `get_text(' ', strip=True)` keeps them apart. */
  lemma TextRunsTogether()
    ensures Body(["a", "b"], [], []).text == "ab"
    ensures GetText(["a", "b"], " ") == "a b"
  {
    ConcatAB();
    GetTextAB();
  }

  lemma ConcatAB()
    ensures Concat(["a", "b"]) == "ab"
  {
    var b := ["b"];
    var ab := ["a", "b"];
    assert ab[1..] == b && b[1..] == [];
    assert Concat(ab) == "a" + Concat(b) && Concat(b) == "b" + Concat([]);
  }

  lemma GetTextAB()
    ensures GetText(["a", "b"], " ") == "a b"
  {
    StrippedAB();
    JoinAB();
  }

  /** Strings of white space are dropped and the others stripped:
      `<p> a </p>\n<p>b</p>` gives "a b". */
  lemma BlanksDropped()
    ensures GetText([" a ", "\n", "b"], " ") == "a b"
  {
    StripPadded();
    var b := ["b"];
    var nb := ["\n", "b"];
    var anb := [" a ", "\n", "b"];
    assert anb[1..] == nb && nb[1..] == b && b[1..] == [];
    StrippedAB();
    assert StrippedStrings(nb) == b;
    assert StrippedStrings(anb) == ["a", "b"];
    JoinAB();
  }

  lemma StripPadded()
    ensures Text.Strip(" a ") == "a" && Text.Strip("\n") == ""
  {
    var sa := [' ', 'a', ' '];
    var a_ := ['a', ' '];
    assert sa[1..] == a_ && a_[..1] == "a";
    assert Text.StripLeft(sa) == a_;
    assert Text.StripRight(a_) == "a";
  }

  lemma StrippedAB()
    ensures StrippedStrings(["b"]) == ["b"] && StrippedStrings(["a", "b"]) == ["a", "b"]
  {
    PlainAB();
    StrippedCons("b", []);
    assert ["b"] + [] == ["b"];
    StrippedCons("a", ["b"]);
    assert ["a"] + ["b"] == ["a", "b"];
  }

  /** A string that strips to itself is kept as it is. */
  lemma StrippedCons(s: string, rest: seq<string>)
    requires s != "" && Text.Strip(s) == s
    ensures StrippedStrings([s] + rest) == [s] + StrippedStrings(rest)
  {
    assert ([s] + rest)[0] == s && ([s] + rest)[1..] == rest;
  }

  lemma PlainAB()
    ensures Text.Strip("a") == "a" && Text.Strip("b") == "b"
  {
    StripChar('a');
    StripChar('b');
  }

  lemma StripChar(c: char)
    requires 'a' <= c <= 'z'
    ensures Text.Strip([c]) == [c]
  {
    assert !Text.IsSpace(c);
    assert Text.StripLeft([c]) == [c];
    assert Text.StripRight([c]) == [c];
  }

  lemma JoinAB()
    ensures Text.Join(["a", "b"], " ") == "a b"
  {
    var b := ["b"];
    var ab := ["a", "b"];
    assert ab[1..] == b;
    assert Text.Join(b, " ") == "b";
  }

  /** How many elements of `xs` satisfy `p`. */
  function CountIf<T>(xs: seq<T>, p: T -> bool): (n: nat)
    ensures n <= |xs|
    decreases |xs|
  {
    if |xs| == 0 then 0 else (if p(xs[0]) then 1 else 0) + CountIf(xs[1..], p)
  }

  /** Counting distributes over concatenation. */
  lemma {:induction false} CountIfAppend<T>(xs: seq<T>, ys: seq<T>, p: T -> bool)
    ensures CountIf(xs + ys, p) == CountIf(xs, p) + CountIf(ys, p)
    decreases |xs|
  {
    if |xs| == 0 {
      assert xs + ys == ys;
    } else {
      assert (xs + ys)[1..] == xs[1..] + ys;
      CountIfAppend(xs[1..], ys, p);
    }
  }

  /** `findAll("a", href=True)`: the anchors that carry an `href`. */
  predicate Linked(a: Anchor) {
    a.href.Some?
  }

  /** A node of a parsed document tree: an element with its tag name, its
      `id` attribute and its children, or a run of text. */
  datatype Node = Element(tag: string, id: Option<string>, children: seq<Node>) | TextRun(text: string)

  /** `.text` of a node: all the text under it, in document order. */
  function TextOf(n: Node): string
    decreases n, 0
  {
    match n
    case TextRun(t) => t
    case Element(_, _, cs) => TextOfAll(cs)
  }

  function TextOfAll(cs: seq<Node>): string
    decreases cs, 1
  {
    if |cs| == 0 then "" else TextOf(cs[0]) + TextOfAll(cs[1..])
  }
}
