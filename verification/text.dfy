/** Python's string operations, as the plugins use them: `in`, `startswith`,
    `endswith`, `replace`, `split`, `join`, `lower` and `html.escape`.
    Strings are sequences of Unicode scalar values. */
module Text {

  predicate StartsWith(s: string, p: string) {
    |p| <= |s| && s[..|p|] == p
  }

  predicate EndsWith(s: string, p: string) {
    |p| <= |s| && s[|s| - |p|..] == p
  }

  /** Python's `p in s` for strings: `p` occurs somewhere in `s`. */
  predicate Contains(s: string, p: string)
    decreases |s|
  {
    StartsWith(s, p) || (|s| > 0 && Contains(s[1..], p))
  }

  /** `p` sits at index `i` of `s`. */
  predicate OccursAt(s: string, p: string, i: int) {
    0 <= i <= |s| - |p| && s[i..i + |p|] == p
  }

  /** An occurrence past index 0 is an occurrence in the tail. */
  lemma OccursShift(s: string, p: string, i: int)
    requires |s| > 0 && i >= 1
    ensures OccursAt(s, p, i) <==> OccursAt(s[1..], p, i - 1)
  {
    if 0 <= i - 1 <= |s[1..]| - |p| {
      assert s[1..][i - 1..i - 1 + |p|] == s[i..i + |p|];
    }
  }

  /** `Contains` holds exactly when `p` sits at some index of `s`. */
  lemma {:induction false} ContainsIffOccurs(s: string, p: string)
    ensures Contains(s, p) <==> exists i :: OccursAt(s, p, i)
    decreases |s|
  {
    if StartsWith(s, p) {
      assert OccursAt(s, p, 0);
    } else if |s| == 0 {
      forall i
        ensures !OccursAt(s, p, i)
      {
      }
    } else {
      ContainsIffOccurs(s[1..], p);
      if Contains(s[1..], p) {
        var i :| OccursAt(s[1..], p, i);
        OccursShift(s, p, i + 1);
      } else {
        forall i
          ensures !OccursAt(s, p, i)
        {
          if i >= 1 {
            OccursShift(s, p, i);
          }
        }
      }
    }
  }

  /** Python's `s.replace(old, new)` with an empty `old`: `new` before every
      character and at the end. */
  function Interleave(s: string, rep: string): (r: string)
    ensures |r| == |s| + (|s| + 1) * |rep|
    decreases |s|
  {
    if |s| == 0 then rep else rep + [s[0]] + Interleave(s[1..], rep)
  }

  /** Python's `s.replace(old, new)`: every non-overlapping occurrence of
      `old`, scanning from the left, becomes `new`. */
  function Replace(s: string, pat: string, rep: string): string
    decreases |s|
  {
    if |pat| == 0 then Interleave(s, rep)
    else if |s| < |pat| then s
    else if s[..|pat|] == pat then rep + Replace(s[|pat|..], pat, rep)
    else [s[0]] + Replace(s[1..], pat, rep)
  }

  /** Replacing a pattern that does not occur leaves the string as it was. */
  lemma {:induction false} ReplaceAbsent(s: string, pat: string, rep: string)
    requires |pat| > 0 && !Contains(s, pat)
    ensures Replace(s, pat, rep) == s
    decreases |s|
  {
    if |s| >= |pat| {
      assert !StartsWith(s, pat);
      ReplaceAbsent(s[1..], pat, rep);
    }
  }

  /** Pointwise substitution of one character by another: the independent
      reference for a one-character `replace`. */
  function SubstChar(s: string, c: char, d: char): (r: string)
    ensures |r| == |s|
    ensures forall i :: 0 <= i < |s| ==> r[i] == (if s[i] == c then d else s[i])
  {
    seq(|s|, i requires 0 <= i < |s| => if s[i] == c then d else s[i])
  }

  /** `s.replace(c, d)` on single characters is pointwise substitution. */
  lemma {:induction false} ReplaceCharIsSubst(s: string, c: char, d: char)
    ensures Replace(s, [c], [d]) == SubstChar(s, c, d)
    decreases |s|
  {
    if |s| >= 1 {
      ReplaceCharIsSubst(s[1..], c, d);
      assert SubstChar(s, c, d) == [if s[0] == c then d else s[0]] + SubstChar(s[1..], c, d);
    }
  }

  /** Python's `s.split(sep)` for a non-empty separator. */
  function Split(s: string, sep: string): (parts: seq<string>)
    requires |sep| > 0
    ensures |parts| >= 1
    decreases |s|
  {
    if |s| < |sep| then [s]
    else if s[..|sep|] == sep then [[]] + Split(s[|sep|..], sep)
    else
      var rest := Split(s[1..], sep);
      [[s[0]] + rest[0]] + rest[1..]
  }

  /** Python's `sep.join(parts)`. */
  function Join(parts: seq<string>, sep: string): string
    decreases |parts|
  {
    if |parts| == 0 then []
    else if |parts| == 1 then parts[0]
    else parts[0] + sep + Join(parts[1..], sep)
  }

  lemma JoinConsHead(x: string, y: string, tail: seq<string>, sep: string)
    ensures Join([x + y] + tail, sep) == x + Join([y] + tail, sep)
  {
    if |tail| > 0 {
      assert ([x + y] + tail)[1..] == tail;
      assert ([y] + tail)[1..] == tail;
    }
  }

  /** Splitting and re-joining with the same separator gives back the string. */
  lemma {:induction false} JoinSplit(s: string, sep: string)
    requires |sep| > 0
    ensures Join(Split(s, sep), sep) == s
    decreases |s|
  {
    if |s| < |sep| {
    } else if s[..|sep|] == sep {
      JoinSplit(s[|sep|..], sep);
      var rest := Split(s[|sep|..], sep);
      assert ([[]] + rest)[1..] == rest;
      assert s == s[..|sep|] + s[|sep|..];
    } else {
      JoinSplit(s[1..], sep);
      var rest := Split(s[1..], sep);
      JoinConsHead([s[0]], rest[0], rest[1..], sep);
      assert [rest[0]] + rest[1..] == rest;
      assert s == [s[0]] + s[1..];
    }
  }

  /** A string without the separator character splits into itself. */
  lemma {:induction false} SplitNoSep(x: string, c: char)
    requires c !in x
    ensures Split(x, [c]) == [x]
    decreases |x|
  {
    if |x| >= 1 {
      assert x[..1] == [x[0]];
      assert c !in x[1..];
      SplitNoSep(x[1..], c);
      assert [x[0]] + x[1..] == x;
    }
  }

  /** Splitting just after a first piece free of the separator. */
  lemma {:induction false} SplitAfterPiece(x: string, c: char, y: string)
    requires c !in x
    ensures Split(x + [c] + y, [c]) == [x] + Split(y, [c])
    decreases |x|
  {
    var s := x + [c] + y;
    if |x| == 0 {
      assert s == [c] + y;
      assert s[..1] == [c] && s[1..] == y;
    } else {
      assert c !in x[1..];
      SplitAfterPiece(x[1..], c, y);
      assert s[1..] == x[1..] + [c] + y;
      assert s[..1] == [x[0]] && s[0] == x[0] && x[0] != c;
      assert [x[0]] + x[1..] == x;
    }
  }

  /** Joining pieces that do not contain the separator character and
      splitting again gives back the pieces. */
  lemma {:induction false} SplitJoinChar(parts: seq<string>, c: char)
    requires |parts| > 0 && forall k :: 0 <= k < |parts| ==> c !in parts[k]
    ensures Split(Join(parts, [c]), [c]) == parts
    decreases |parts|
  {
    if |parts| == 1 {
      SplitNoSep(parts[0], c);
    } else {
      SplitJoinChar(parts[1..], c);
      SplitAfterPiece(parts[0], c, Join(parts[1..], [c]));
      assert [parts[0]] + parts[1..] == parts;
    }
  }

  lemma NotContainsShort(s: string, p: string)
    requires |s| < |p|
    ensures !Contains(s, p)
    decreases |s|
  {
    if |s| > 0 {
      NotContainsShort(s[1..], p);
    }
  }

  /** Python's `s.split(c)[0]`: everything before the first `c`. */
  function Before(s: string, c: char): (r: string)
    ensures |r| <= |s| && r == s[..|r|]
    ensures forall i :: 0 <= i < |r| ==> r[i] != c
    ensures |r| < |s| ==> s[|r|] == c
  {
    if |s| == 0 then []
    else if s[0] == c then []
    else [s[0]] + Before(s[1..], c)
  }

  /** Python's `s.split(c)[-1]`, which for `c == '/'` is also the tail of
      `os.path.split(s)`: everything after the last `c`. */
  function AfterLast(s: string, c: char): (r: string)
    ensures |r| <= |s| && r == s[|s| - |r|..]
    ensures forall i :: 0 <= i < |r| ==> r[i] != c
    ensures |r| < |s| ==> s[|s| - |r| - 1] == c
    decreases |s|
  {
    if |s| == 0 then []
    else if s[|s| - 1] == c then []
    else AfterLast(s[..|s| - 1], c) + [s[|s| - 1]]
  }

  /** `Before` agrees with the first piece of `Split`. */
  lemma {:induction false} BeforeIsFirstPiece(s: string, c: char)
    ensures Before(s, c) == Split(s, [c])[0]
    decreases |s|
  {
    if |s| >= 1 && s[0] != c {
      BeforeIsFirstPiece(s[1..], c);
    }
  }

  /** The characters Python's `str.isspace` accepts. */
  predicate IsSpace(ch: char) {
    ch == ' ' || ('\t' <= ch <= '\r') || ('\U{1c}' <= ch <= '\U{1f}')
    || ch == '\U{85}' || ch == '\U{a0}' || ch == '\U{1680}'
    || ('\U{2000}' <= ch <= '\U{200a}') || ch == '\U{2028}' || ch == '\U{2029}'
    || ch == '\U{202f}' || ch == '\U{205f}' || ch == '\U{3000}'
  }

  /** Python's `s.split()` with no argument: the maximal runs of non-space
      characters. */
  function Words(s: string): (ws: seq<string>)
    ensures forall k :: 0 <= k < |ws| ==> |ws[k]| > 0
    ensures forall k, i :: 0 <= k < |ws| && 0 <= i < |ws[k]| ==> !IsSpace(ws[k][i])
    decreases |s|
  {
    if |s| == 0 then []
    else if IsSpace(s[0]) then Words(s[1..])
    else
      var w := WordAt(s);
      [w] + Words(s[|w|..])
  }

  /** The leading run of non-space characters of `s`. */
  function WordAt(s: string): (w: string)
    ensures |w| <= |s| && w == s[..|w|]
    ensures |s| > 0 && !IsSpace(s[0]) ==> |w| > 0
    ensures forall i :: 0 <= i < |w| ==> !IsSpace(w[i])
    ensures |w| < |s| ==> IsSpace(s[|w|])
  {
    if |s| == 0 || IsSpace(s[0]) then [] else [s[0]] + WordAt(s[1..])
  }

  /** `s.lstrip()`: without its leading white space. */
  function StripLeft(s: string): (r: string)
    ensures |r| <= |s| && r == s[|s| - |r|..]
    ensures |r| > 0 ==> !IsSpace(r[0])
    ensures forall k :: 0 <= k < |s| - |r| ==> IsSpace(s[k])
    decreases |s|
  {
    if |s| == 0 || !IsSpace(s[0]) then s else StripLeft(s[1..])
  }

  /** `s.rstrip()`: without its trailing white space. */
  function StripRight(s: string): (r: string)
    ensures |r| <= |s| && r == s[..|r|]
    ensures |r| > 0 ==> !IsSpace(r[|r| - 1])
    ensures forall k :: |r| <= k < |s| ==> IsSpace(s[k])
    decreases |s|
  {
    if |s| == 0 || !IsSpace(s[|s| - 1]) then s else StripRight(s[..|s| - 1])
  }

  /** `s.strip()`: empty exactly when `s` is all white space; otherwise it
      starts and ends with a character that is not. */
  function Strip(s: string): (r: string)
    ensures r == "" <==> forall k :: 0 <= k < |s| ==> IsSpace(s[k])
    ensures |r| > 0 ==> !IsSpace(r[0]) && !IsSpace(r[|r| - 1])
  {
    StripFacts(s);
    StripRight(StripLeft(s))
  }

  lemma StripFacts(s: string)
    ensures var r := StripRight(StripLeft(s));
            && (r == "" <==> forall k :: 0 <= k < |s| ==> IsSpace(s[k]))
            && (|r| > 0 ==> !IsSpace(r[0]))
  {
    var l := StripLeft(s);
    var r := StripRight(l);
    if r == "" {
      assert |l| == 0;
    } else {
      assert r[0] == l[0];
    }
  }

  /** A space ends the word it follows. */
  lemma {:induction false} WordAtSpace(a: string, b: string)
    ensures WordAt(a + " " + b) == WordAt(a)
    decreases |a|
  {
    if |a| > 0 && !IsSpace(a[0]) {
      assert (a + " " + b)[1..] == a[1..] + " " + b;
      WordAtSpace(a[1..], b);
    }
  }

  /** Two strings joined by a space have the words of the first, then
      those of the second: no word runs across the space. */
  lemma {:induction false} WordsSpace(a: string, b: string)
    ensures Words(a + " " + b) == Words(a) + Words(b)
    decreases |a|
  {
    var s := a + " " + b;
    if |a| == 0 {
      assert s[1..] == b;
    } else if IsSpace(a[0]) {
      assert s[1..] == a[1..] + " " + b;
      WordsSpace(a[1..], b);
    } else {
      var w := WordAt(a);
      WordAtSpace(a, b);
      assert s[|w|..] == a[|w|..] + " " + b;
      WordsSpace(a[|w|..], b);
    }
  }

  /** Leading white space holds no word. */
  lemma {:induction false} WordsStripLeft(s: string)
    ensures Words(StripLeft(s)) == Words(s)
    decreases |s|
  {
    if |s| > 0 && IsSpace(s[0]) {
      WordsStripLeft(s[1..]);
    }
  }

  /** A string followed by white space has the string's words. */
  lemma {:induction false} WordsTrailing(a: string, t: string)
    requires forall k :: 0 <= k < |t| ==> IsSpace(t[k])
    ensures Words(a + t) == Words(a)
    decreases |a| + |t|
  {
    var s := a + t;
    if |a| == 0 {
      assert s == t;
      if |t| > 0 {
        WordsTrailing(a, t[1..]);
        assert s[1..] == a + t[1..];
      }
    } else if IsSpace(a[0]) {
      assert s[1..] == a[1..] + t;
      WordsTrailing(a[1..], t);
    } else {
      var w := WordAt(a);
      WordAtTrailing(a, t);
      assert s[|w|..] == a[|w|..] + t;
      WordsTrailing(a[|w|..], t);
    }
  }

  lemma {:induction false} WordAtTrailing(a: string, t: string)
    requires forall k :: 0 <= k < |t| ==> IsSpace(t[k])
    ensures WordAt(a + t) == WordAt(a)
    decreases |a|
  {
    if |a| == 0 {
      assert a + t == t;
    } else if !IsSpace(a[0]) {
      assert (a + t)[1..] == a[1..] + t;
      WordAtTrailing(a[1..], t);
    }
  }

  /** Stripping a string keeps its words. */
  lemma WordsStrip(s: string)
    ensures Words(Strip(s)) == Words(s)
  {
    var l := StripLeft(s);
    var r := StripRight(l);
    var t := l[|r|..];
    StripRightRest(l);
    WordsStripLeft(s);
    WordsTrailing(r, t);
  }

  /** What `rstrip` removes is white space. */
  lemma StripRightRest(l: string)
    ensures var r := StripRight(l);
            var t := l[|r|..];
            l == r + t && forall k :: 0 <= k < |t| ==> IsSpace(t[k])
  {
    var r := StripRight(l);
    var t := l[|r|..];
    assert forall k :: 0 <= k < |t| ==> t[k] == l[|r| + k];
  }

  /** `str.lower()` restricted to ASCII letters. */
  function LowerChar(ch: char): char {
    if 'A' <= ch <= 'Z' then ((ch as int) + 32) as char else ch
  }

  function Lower(s: string): (r: string)
    ensures |r| == |s|
    ensures forall i :: 0 <= i < |s| ==> r[i] == LowerChar(s[i])
  {
    seq(|s|, i requires 0 <= i < |s| => LowerChar(s[i]))
  }

  /** `html.escape(s)` with its default `quote=True`. */
  function EscapeChar(ch: char): string {
    if ch == '&' then "&amp;"
    else if ch == '<' then "&lt;"
    else if ch == '>' then "&gt;"
    else if ch == '"' then "&quot;"
    else if ch == '\'' then "&#x27;"
    else [ch]
  }

  function HtmlEscape(s: string): string
    decreases |s|
  {
    if |s| == 0 then [] else EscapeChar(s[0]) + HtmlEscape(s[1..])
  }

  /** The leading character of `s` with the five entities `html.escape`
      produces decoded: the decoded character and how many characters it
      took up. */
  function UnescapeHead(s: string): (r: (char, nat))
    requires |s| > 0
    ensures 1 <= r.1 <= |s|
  {
    if s[0] != '&' then (s[0], 1)
    else if StartsWith(s, "&amp;") then ('&', 5)
    else if StartsWith(s, "&lt;") then ('<', 4)
    else if StartsWith(s, "&gt;") then ('>', 4)
    else if StartsWith(s, "&quot;") then ('"', 6)
    else if StartsWith(s, "&#x27;") then ('\'', 6)
    else ('&', 1)
  }

  /** The inverse the escape is checked against: every entity decoded, any
      other text copied. */
  function HtmlUnescape(s: string): string
    decreases |s|
  {
    if |s| == 0 then []
    else
      var (c, n) := UnescapeHead(s);
      [c] + HtmlUnescape(s[n..])
  }

  /** Escaped text carries none of the five special characters except the
      `&` that opens an entity. */
  lemma {:induction false} EscapeIsSafe(s: string)
    ensures forall i :: 0 <= i < |HtmlEscape(s)| ==> HtmlEscape(s)[i] !in "<>\"'"
    decreases |s|
  {
    if |s| > 0 {
      EscapeIsSafe(s[1..]);
    }
  }

  /** Unescaping one escaped character, followed by any text. */
  lemma UnescapeOne(c: char, t: string)
    ensures UnescapeHead(EscapeChar(c) + t) == (c, |EscapeChar(c)|)
  {
    var u := EscapeChar(c) + t;
    if c == '&' {
      assert u[..5] == "&amp;";
    } else if c == '<' {
      assert u[..4] == "&lt;" && u[1] == 'l';
    } else if c == '>' {
      assert u[..4] == "&gt;" && u[1] == 'g';
    } else if c == '"' {
      assert u[..6] == "&quot;" && u[1] == 'q';
    } else if c == '\'' {
      assert u[..6] == "&#x27;" && u[1] == '#';
    } else {
      assert u[0] == c;
    }
  }

  /** Unescaping undoes the escape. */
  lemma {:induction false} UnescapeEscape(s: string)
    ensures HtmlUnescape(HtmlEscape(s)) == s
    decreases |s|
  {
    if |s| > 0 {
      UnescapeEscape(s[1..]);
      var e, t := EscapeChar(s[0]), HtmlEscape(s[1..]);
      UnescapeOne(s[0], t);
      assert (e + t)[|e|..] == t;
      assert s == [s[0]] + s[1..];
    }
  }
}
