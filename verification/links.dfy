/** Scanning building blocks for the post-link regular expressions. Each
    `LINK_RE` of the plugins is a chain of literals and greedy character-class
    runs; these functions follow Python's `re` engine through such a chain,
    including the order in which it backtracks. */
module Links {
  import opened Wrappers

  /** A successful match of a post-link pattern: where it starts and ends in
      the text and the named groups it captured (`instance` is empty for
      patterns without that group). */
  datatype LinkMatch = LinkMatch(start: nat, end: nat, instance: string, user: string, post: string)

  /** The literal `lit` occurs in `s` at index `i`. */
  predicate LitAt(s: string, i: nat, lit: string) {
    i + |lit| <= |s| && s[i..i + |lit|] == lit
  }

  /** The end of the greedy run `[^stop]*` that starts at `i`. */
  function RunEnd(s: string, i: nat, stop: set<char>): (j: nat)
    requires i <= |s|
    ensures i <= j <= |s|
    ensures forall k :: i <= k < j ==> s[k] !in stop
    ensures j < |s| ==> s[j] in stop
    decreases |s| - i
  {
    if i == |s| || s[i] in stop then i else RunEnd(s, i + 1, stop)
  }

  /** A run is determined by where it stops: the reference characterisation
      of `RunEnd`. */
  lemma {:induction false} RunEndUnique(s: string, i: nat, j: nat, stop: set<char>)
    requires i <= j <= |s|
    requires forall k :: i <= k < j ==> s[k] !in stop
    requires j == |s| || s[j] in stop
    ensures RunEnd(s, i, stop) == j
    decreases j - i
  {
    if i < j {
      RunEndUnique(s, i + 1, j, stop);
    }
  }

  /** `(https|http)://`: the alternation tries "https" first. */
  function SchemeEnd(s: string, i: nat): (r: Option<nat>)
    ensures r.Some? ==> r.value <= |s|
    ensures r.Some? ==> LitAt(s, i, "https://") || LitAt(s, i, "http://")
    ensures r == None <==> !LitAt(s, i, "https://") && !LitAt(s, i, "http://")
  {
    if LitAt(s, i, "https://") then Some(i + 8)
    else if LitAt(s, i, "http://") then Some(i + 7)
    else None
  }

  /** The optional group `(www.){0,1}`: "www" and any character but a newline,
      tried first, with the rest of the pattern matched after it. */
  predicate WwwAt(s: string, i: nat) {
    LitAt(s, i, "www") && i + 3 < |s| && s[i + 3] != '\n'
  }

  lemma WwwLit(s: string, i: nat)
    requires LitAt(s, i, "www.")
    ensures WwwAt(s, i)
  {
    assert s[i..i + 3] == s[i..i + 4][..3];
    assert "www."[..3] == "www";
    assert s[i + 3] == s[i..i + 4][3];
  }

  lemma NotWww(s: string, i: nat)
    requires i < |s| && s[i] != 'w'
    ensures !WwwAt(s, i)
  {
    assert i + 3 <= |s| ==> s[i..i + 3][0] == s[i];
  }

  /** The optional `www.` as a link written by hand spells it. */
  function WwwPart(www: bool): string {
    if www then "www." else ""
  }

  /** `(?<=\!\[\]\()`: the match position is preceded by "![](". */
  predicate AfterBlankImage(s: string, i: nat) {
    i >= 4 && i <= |s| && s[i - 4..i] == "![]("
  }

  /** Lemma helper: a literal at a position of a concatenation. */
  lemma LitAtConcat(pre: string, lit: string, post: string)
    ensures LitAt(pre + lit + post, |pre|, lit)
  {
    assert (pre + lit + post)[|pre|..|pre| + |lit|] == lit;
  }
}
