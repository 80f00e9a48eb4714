/** The spoilerbox Markdown preprocessor (spoilerbox.py): every
    `[spoiler]...[/spoiler]` or `[spoiler Description]...[/spoiler]` block
    becomes a collapsible box. The opening and closing HTML go into
    Markdown's HTML stash and the text keeps placeholders for them, so the
    content in between is still rendered as Markdown. */
module Spoilerbox {
  import opened Wrappers
  import Text
  import Json

  const Open := "[spoiler"
  const Close := "[/spoiler]"

  /** `tag` (lower case) sits at index `i` of `s`, ignoring the case of
      ASCII letters, as `re.IGNORECASE` compares them. */
  predicate TagAt(s: string, i: nat, tag: string) {
    i + |tag| <= |s| && Text.Lower(s[i..i + |tag|]) == tag
  }

  /** Both tags start with a bracket, which has no other case. */
  lemma TagStartsWithBracket(s: string, i: nat, tag: string)
    requires |tag| > 0 && tag[0] == '[' && TagAt(s, i, tag)
    ensures s[i] == '['
  {
    assert Text.Lower(s[i..i + |tag|])[0] == Text.LowerChar(s[i]);
  }

  /** The first index at or after `k` holding `c`. */
  function FirstFrom(s: string, k: nat, c: char): (r: Option<nat>)
    requires k <= |s|
    ensures r.Some? ==> k <= r.value < |s| && s[r.value] == c
    ensures forall j :: k <= j < (if r.Some? then r.value else |s|) ==> s[j] != c
    decreases |s| - k
  {
    if k == |s| then None
    else if s[k] == c then Some(k)
    else FirstFrom(s, k + 1, c)
  }

  /** The first closing tag at or after `k`. */
  function CloseFrom(s: string, k: nat): (r: Option<nat>)
    requires k <= |s|
    ensures r.Some? ==> k <= r.value && TagAt(s, r.value, Close)
    ensures forall j :: k <= j < (if r.Some? then r.value else |s|) ==> !TagAt(s, j, Close)
    decreases |s| - k
  {
    if k == |s| then None
    else if TagAt(s, k, Close) then Some(k)
    else CloseFrom(s, k + 1)
  }

  /** A match of `MATCH_RE`: where it starts, the description group, where
      the content starts and where the closing tag starts. */
  datatype Match = Match(start: nat, desc: Option<string>, contentStart: nat, closeAt: nat)

  /** The match the regular expression engine finds at `i`, if any. The
      optional ` .+?` group is tried first and extends to the first `]` that
      leaves it a character; the lazy content ends at the first closing tag.
      A later `]` could not help, since any closing tag after it also
      follows the first one. */
  function MatchAt(s: string, i: nat): (r: Option<Match>)
    requires i <= |s|
    ensures r.Some? ==>
              && r.value.start == i && TagAt(s, i, Open) && i + 8 < |s|
              && r.value.contentStart <= r.value.closeAt
              && TagAt(s, r.value.closeAt, Close)
              && (forall j :: r.value.contentStart <= j < r.value.closeAt ==> !TagAt(s, j, Close))
              && (r.value.desc.None? ==> s[i + 8] == ']' && r.value.contentStart == i + 9)
              && (r.value.desc.Some? ==>
                    && s[i + 8] == ' ' && i + 11 <= r.value.contentStart && s[r.value.contentStart - 1] == ']'
                    && r.value.desc.value == s[i + 9..r.value.contentStart - 1]
                    && (forall j :: i + 10 <= j < r.value.contentStart - 1 ==> s[j] != ']'))
    ensures r.None? && TagAt(s, i, Open) && i + 8 < |s| && s[i + 8] == ']' ==>
              forall j :: i + 9 <= j < |s| ==> !TagAt(s, j, Close)
  {
    if !TagAt(s, i, Open) || i + 8 >= |s| then None
    else if s[i + 8] == ' ' then
      if i + 10 > |s| then None
      else match FirstFrom(s, i + 10, ']')
        case None => None
        case Some(j) =>
          match CloseFrom(s, j + 1)
          case None => None
          case Some(c) => Some(Match(i, Some(s[i + 9..j]), j + 1, c))
    else if s[i + 8] == ']' then
      match CloseFrom(s, i + 9)
      case None => None
      case Some(c) => Some(Match(i, None, i + 9, c))
    else None
  }

  /** `RE.search(text)`: the leftmost match. */
  function Search(s: string, from: nat): (r: Option<Match>)
    requires from <= |s|
    ensures r.Some? ==> from <= r.value.start <= |s| && MatchAt(s, r.value.start) == r
    ensures r.Some? ==> forall i :: from <= i < r.value.start ==> MatchAt(s, i).None?
    ensures r.None? ==> forall i :: from <= i <= |s| ==> MatchAt(s, i).None?
    decreases |s| - from
  {
    match MatchAt(s, from)
    case Some(m) => Some(m)
    case None => if from == |s| then None else Search(s, from + 1)
  }

  /** Text without a bracket holds no spoiler block. */
  lemma NoBracketNoMatch(s: string)
    requires '[' !in s
    ensures Search(s, 0).None?
  {
    var r := Search(s, 0);
    if r.Some? {
      TagStartsWithBracket(s, r.value.start, Open);
      assert false;
    }
  }

  // ------------------------------------------------------------- the HTML

  const Script := "\n<script>\n    function loggle(button, hidetext, showtext) {\n        table = button.parentNode.children[1];\n        console.log(button.parentNode);\n        console.log(button.parentNode.children);\n        console.log(table);\n        if (table.style.display == 'none') {\n            // We were hidden, now show.\n            table.style.display = 'block';\n            button.innerText = hidetext;\n        } else {\n            table.style.display = 'none';\n            button.innerText = showtext;\n        }\n        return false;\n    }\n</script>\n"

  const PreHead := "<div class=\"spoiler-wrapper\">"

  /** `TEMPLATE_POST.render(...)`. */
  const Post := "    </div>\n</div>"

  /** A block the preprocessor stores in Markdown's HTML stash: a box's
      header, with the script in front of it or not, or a box's footer. */
  datatype Block = Header(script: bool, desc: string) | Footer

  /** `TEMPLATE_PRE.render(desc=desc)`: the description is inserted
      unescaped (the template does not autoescape) and Jinja drops the
      template's final newline. */
  function Pre(desc: string): string {
    PreHead + "\n    <button type=\"button\" class=\"spoiler-button\" onclick=\"loggle(this, 'Hide " + desc + "', 'Show " + desc
    + "')\">\n        Show " + desc + "\n    </button>\n    <div class=\"spoiler-content\" style=\"display: none\">"
  }

  /** The HTML stored for a block. */
  function Render(b: Block): string {
    match b
    case Footer => Post
    case Header(script, desc) => (if script then Script else "") + Pre(desc)
  }

  /** A header with the script starts with it; one without starts with the
      wrapper `div`. */
  lemma HeaderStarts(desc: string)
    ensures Text.StartsWith(Render(Header(true, desc)), Script)
    ensures Text.StartsWith(Render(Header(false, desc)), PreHead)
  {
    assert (Script + Pre(desc))[..|Script|] == Script;
    assert "" + Pre(desc) == Pre(desc);
    assert Pre(desc)[..|PreHead|] == PreHead;
  }

  /** `htmlStash.store(html)` hands back this placeholder for the block
      stored as number `n`. */
  function Placeholder(n: nat): (r: string)
    ensures '[' !in r && '\n' !in r
  {
    var d := Json.NatDigits(n);
    var r := "\U{2}wzxhzdk:" + d + "\U{3}";
    assert forall k :: 9 <= k < 9 + |d| ==> r[k] == d[k - 9];
    r
  }

  /** What stands between `before` and `after` once a match is replaced:
      the two placeholders around the content, each on a line of its own. */
  function Middle(n: nat, content: string): (r: string)
    ensures multiset(r)['['] == multiset(content)['[']
  {
    var p1, p2 := Placeholder(n), Placeholder(n + 1);
    JoinFive("", p1, content, p2, "", "\n");
    Regroup("\n", p1, content, p2);
    NoBracketAround("\n" + p1 + "\n", content, "\n" + p2 + "\n");
    Text.Join(["", p1, content, p2, ""], "\n")
  }

  lemma Regroup(sep: string, b: string, c: string, d: string)
    ensures sep + b + sep + c + sep + d + sep == (sep + b + sep) + c + (sep + d + sep)
  {
  }

  lemma NoBracketAround(x: string, content: string, y: string)
    requires '[' !in x && '[' !in y
    ensures multiset(x + content + y)['['] == multiset(content)['[']
  {
    assert multiset(x + content + y) == multiset(x) + multiset(content) + multiset(y);
  }

  predicate Fits(text: string, m: Match) {
    m.start + 9 <= m.contentStart <= m.closeAt && m.closeAt + 10 <= |text|
  }

  /** One turn of the loop: `"\n".join([before, pre, content, post, after])`
      and the stash with the two blocks appended. */
  function Step(text: string, m: Match, stash: seq<Block>, inserted: bool): (string, seq<Block>)
    requires Fits(text, m)
  {
    var desc := if m.desc.Some? then m.desc.value else "Spoiler";
    (text[..m.start] + Middle(|stash|, text[m.contentStart..m.closeAt]) + text[m.closeAt + 10..],
     stash + [Header(!inserted, desc), Footer])
  }

  /** A replacement removes both tags' brackets and adds none, so the loop
      ends. */
  lemma StepFewerBrackets(text: string, m: Match, stash: seq<Block>, inserted: bool)
    requires Fits(text, m) && text[m.start] == '[' && text[m.closeAt] == '['
    ensures multiset(Step(text, m, stash, inserted).0)['['] < multiset(text)['[']
  {
    var before, mid, content, close, after :=
      text[..m.start], text[m.start..m.contentStart], text[m.contentStart..m.closeAt], text[m.closeAt..m.closeAt + 10], text[m.closeAt + 10..];
    assert text == before + mid + content + close + after;
    assert mid[0] == '[' && close[0] == '[';
    assert multiset(mid)['['] >= 1 && multiset(close)['['] >= 1;
  }

  /** The blocks come in header and footer pairs, and only the first
      header carries the script, if `script` says it does. */
  predicate Boxes(bs: seq<Block>, script: bool)
    decreases |bs|
  {
    |bs| == 0 || (|bs| >= 2 && bs[0].Header? && bs[0].script == script && bs[1] == Footer && Boxes(bs[2..], false))
  }

  /** Boxes in pairs: an even count, footers at odd places, and no header
      after the first carrying the script. */
  lemma {:induction false} BoxesShape(bs: seq<Block>, script: bool)
    requires Boxes(bs, script)
    ensures |bs| % 2 == 0
    ensures forall k :: 0 <= k < |bs| ==> (k % 2 == 1 <==> bs[k] == Footer)
    ensures forall k :: 0 < k < |bs| && bs[k].Header? ==> !bs[k].script
    decreases |bs|
  {
    if |bs| > 0 {
      BoxesShape(bs[2..], false);
      forall k | 2 <= k < |bs|
        ensures bs[k] == bs[2..][k - 2] && (k % 2 == 1 <==> (k - 2) % 2 == 1)
      {
      }
    }
  }

  /** The match found lies inside the text and both its tags start with a
      bracket. */
  lemma SearchFits(text: string)
    requires Search(text, 0).Some?
    ensures var m := Search(text, 0).value; Fits(text, m) && text[m.start] == '[' && text[m.closeAt] == '['
  {
    var m := Search(text, 0).value;
    TagStartsWithBracket(text, m.start, Open);
    TagStartsWithBracket(text, m.closeAt, Close);
  }

  /** Matches are replaced, leftmost first, until none is left. */
  function Loop(text: string, stash: seq<Block>, inserted: bool): (r: (string, seq<Block>))
    ensures Search(r.0, 0).None?
    ensures |r.1| >= |stash| && r.1[..|stash|] == stash && Boxes(r.1[|stash|..], !inserted)
    decreases multiset(text)['[']
  {
    var s := Search(text, 0);
    if s.None? then
      assert stash[|stash|..] == [];
      (text, stash)
    else
      var m := s.value;
      SearchFits(text);
      StepFewerBrackets(text, m, stash, inserted);
      var st := Step(text, m, stash, inserted);
      var r := Loop(st.0, st.1, true);
      LoopPrefix(stash, st.1, r.1);
      r
  }

  /** Blocks stored after a step's two keep the step's pair in front. */
  lemma LoopPrefix(stash: seq<Block>, mid: seq<Block>, all: seq<Block>)
    requires |mid| == |stash| + 2 && mid[..|stash|] == stash
    requires |all| >= |mid| && all[..|mid|] == mid
    ensures all[..|stash|] == stash
    ensures all[|stash|..] == mid[|stash|..] + all[|mid|..]
    ensures all[|stash|..][2..] == all[|mid|..]
  {
    assert all[..|stash|] == all[..|mid|][..|stash|];
    assert all == all[..|mid|] + all[|mid|..];
  }

  /** `SpoilerblockPreprocessor.run(lines)`: the lines afterwards, holding
      no spoiler block, and the stash with a header and a footer block
      stored per box. Only the first header carries the script. */
  function Run(lines: seq<string>, stash: seq<Block>): (r: (seq<string>, seq<Block>))
    ensures Search(Text.Join(r.0, "\n"), 0).None?
    ensures |r.1| >= |stash| && r.1[..|stash|] == stash && Boxes(r.1[|stash|..], true)
  {
    var r := Loop(Text.Join(lines, "\n"), stash, false);
    Text.JoinSplit(r.0, "\n");
    (Text.Split(r.0, "\n"), r.1)
  }

  /** One plain box: the tags become the placeholders of two new blocks on
      lines of their own, the content stays in the text, and the stash gets
      a header with the script and the default description, then a footer. */
  lemma OneBox(c: string, stash: seq<Block>)
    requires '[' !in c && '\n' !in c
    ensures Run(["[spoiler]" + c + "[/spoiler]"], stash)
            == (["", Placeholder(|stash|), c, Placeholder(|stash| + 1), ""], stash + [Header(true, "Spoiler"), Footer])
  {
    var text := "[spoiler]" + c + "[/spoiler]";
    var lines := ["", Placeholder(|stash|), c, Placeholder(|stash| + 1), ""];
    assert Text.Join([text], "\n") == text;
    OneBoxLoop(c, stash);
    MiddleLines(c, |stash|);
    assert Run([text], stash).0 == lines;
    assert Run([text], stash).1 == stash + [Header(true, "Spoiler"), Footer];
  }

  /** The text a box leaves splits into its five lines. */
  lemma MiddleLines(c: string, n: nat)
    requires '\n' !in c
    ensures Text.Split(Middle(n, c), "\n") == ["", Placeholder(n), c, Placeholder(n + 1), ""]
  {
    var lines := ["", Placeholder(n), c, Placeholder(n + 1), ""];
    assert forall k :: 0 <= k < |lines| ==> '\n' !in lines[k];
    Text.SplitJoinChar(lines, '\n');
  }

  lemma JoinFive(a: string, b: string, c: string, d: string, e: string, sep: string)
    requires a == [] && e == []
    ensures Text.Join([a, b, c, d, e], sep) == sep + b + sep + c + sep + d + sep
  {
    var ps := [a, b, c, d, e];
    assert ps[1..] == [b, c, d, e] && ps[1..][1..] == [c, d, e] && ps[1..][1..][1..] == [d, e] && ps[1..][1..][1..][1..] == [e];
    assert Text.Join([d, e], sep) == d + sep + e;
    assert Text.Join([c, d, e], sep) == c + sep + (d + sep + e);
    assert Text.Join([b, c, d, e], sep) == b + sep + (c + sep + (d + sep + e));
    assert Text.Join(ps, sep) == a + sep + (b + sep + (c + sep + (d + sep + e)));
  }

  lemma OneBoxLoop(c: string, stash: seq<Block>)
    requires '[' !in c
    ensures Loop("[spoiler]" + c + "[/spoiler]", stash, false) == (Middle(|stash|, c), stash + [Header(true, "Spoiler"), Footer])
  {
    var text := "[spoiler]" + c + "[/spoiler]";
    var text' := Middle(|stash|, c);
    var stash' := stash + [Header(true, "Spoiler"), Footer];
    OneBoxMatch(c);
    assert text[9..9 + |c|] == c;
    StepBlocks(text, c, stash);
    StepText(text, c, stash);
    assert Step(text, Match(0, None, 9, 9 + |c|), stash, false).0 == text' by {
      Around(text[..0], text', text[9 + |c| + 10..]);
    }
    assert '[' !in text' by {
      assert multiset(text')['['] == 0;
    }
    NoBracketNoMatch(text');
    assert Loop(text', stash', true) == (text', stash');
  }

  lemma StepBlocks(text: string, c: string, stash: seq<Block>)
    requires |text| == |c| + 19
    ensures Step(text, Match(0, None, 9, 9 + |c|), stash, false).1 == stash + [Header(true, "Spoiler"), Footer]
  {
  }

  lemma StepText(text: string, c: string, stash: seq<Block>)
    requires |text| == |c| + 19 && text[9..9 + |c|] == c
    ensures Step(text, Match(0, None, 9, 9 + |c|), stash, false).0 == text[..0] + Middle(|stash|, c) + text[9 + |c| + 10..]
  {
  }

  lemma Around(a: string, x: string, b: string)
    requires a == [] && b == []
    ensures a + x + b == x
  {
  }

  lemma OneBoxMatch(c: string)
    requires '[' !in c
    ensures Search("[spoiler]" + c + "[/spoiler]", 0) == Some(Match(0, None, 9, 9 + |c|))
  {
    var text := "[spoiler]" + c + "[/spoiler]";
    OpensAtStart(c);
    ClosesAfter(c);
    NoCloseInside(c);
    CloseFromIs(text, 9, 9 + |c|);
    assert text[8] == ']';
  }

  lemma OpensAtStart(c: string)
    ensures TagAt("[spoiler]" + c + "[/spoiler]", 0, Open)
  {
    var text := "[spoiler]" + c + "[/spoiler]";
    assert text[..8] == Open;
  }

  lemma ClosesAfter(c: string)
    ensures TagAt("[spoiler]" + c + "[/spoiler]", 9 + |c|, Close)
  {
    var text := "[spoiler]" + c + "[/spoiler]";
    assert text[9 + |c|..9 + |c| + 10] == Close;
  }

  lemma NoCloseInside(c: string)
    requires '[' !in c
    ensures forall j :: 9 <= j < 9 + |c| ==> !TagAt("[spoiler]" + c + "[/spoiler]", j, Close)
  {
    var text := "[spoiler]" + c + "[/spoiler]";
    forall j | 9 <= j < 9 + |c|
      ensures !TagAt(text, j, Close)
    {
      assert text[j] == c[j - 9];
      if TagAt(text, j, Close) {
        TagStartsWithBracket(text, j, Close);
      }
    }
  }

  /** The first closing tag from `k` is at `c` when one is there and none
      comes earlier. */
  lemma {:induction false} CloseFromIs(s: string, k: nat, c: nat)
    requires k <= c && TagAt(s, c, Close)
    requires forall j :: k <= j < c ==> !TagAt(s, j, Close)
    ensures CloseFrom(s, k) == Some(c)
    decreases c - k
  {
    if k < c {
      CloseFromIs(s, k + 1, c);
    }
  }
}
