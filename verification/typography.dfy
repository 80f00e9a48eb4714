/** `unTypography`, the clean-up the three site index generators apply to
    titles and text (related_reading.py, sex_vampires.py and
    full_outline.py each carry an identical copy): runs of line breaks
    collapse, typographic quotes and the pilcrow become plain characters,
    and '^' is written as an HTML character reference. */
module Typography {
  import Text

  predicate IsBreak(ch: char) {
    ch == '\n' || ch == '\r'
  }

  /** The string with its leading line breaks removed. */
  function SkipBreaks(s: string): (r: string)
    ensures |r| <= |s| && r == s[|s| - |r|..]
    ensures |r| > 0 ==> !IsBreak(r[0])
    ensures forall i :: 0 <= i < |s| - |r| ==> IsBreak(s[i])
    decreases |s|
  {
    if |s| > 0 && IsBreak(s[0]) then SkipBreaks(s[1..]) else s
  }

  /** `re.sub(r"[\n\r]+", "\n", s)`: every maximal run of line breaks
      becomes one newline. */
  function Collapse(s: string): (r: string)
    ensures |r| > 0 <==> |s| > 0
    ensures |s| > 0 ==> (r[0] == '\n' <==> IsBreak(s[0]))
    ensures |s| > 0 && !IsBreak(s[0]) ==> r[0] == s[0]
    decreases |s|
  {
    if |s| == 0 then ""
    else if IsBreak(s[0]) then "\n" + Collapse(SkipBreaks(s[1..]))
    else [s[0]] + Collapse(s[1..])
  }

  /** The characters of `s` that are not line breaks: the independent
      reference for what `Collapse` keeps. */
  function Unbroken(s: string): (r: string)
    ensures forall i :: 0 <= i < |r| ==> !IsBreak(r[i])
    decreases |s|
  {
    if |s| == 0 then ""
    else if IsBreak(s[0]) then Unbroken(s[1..])
    else [s[0]] + Unbroken(s[1..])
  }

  /** No carriage return and no two newlines in a row. */
  predicate Collapsed(s: string) {
    (forall i :: 0 <= i < |s| ==> s[i] != '\r') && (forall i :: 0 <= i < |s| - 1 ==> !(s[i] == '\n' && s[i + 1] == '\n'))
  }

  lemma {:induction false} UnbrokenSkip(s: string)
    ensures Unbroken(SkipBreaks(s)) == Unbroken(s)
    decreases |s|
  {
    if |s| > 0 && IsBreak(s[0]) {
      UnbrokenSkip(s[1..]);
    }
  }

  /** Collapsing touches only the line breaks: the other characters are
      kept, in order. */
  lemma {:induction false} CollapseKeepsText(s: string)
    ensures Unbroken(Collapse(s)) == Unbroken(s)
    decreases |s|
  {
    if |s| > 0 {
      if IsBreak(s[0]) {
        var t := SkipBreaks(s[1..]);
        CollapseKeepsText(t);
        UnbrokenSkip(s[1..]);
        assert ("\n" + Collapse(t))[1..] == Collapse(t);
      } else {
        CollapseKeepsText(s[1..]);
        assert ([s[0]] + Collapse(s[1..]))[1..] == Collapse(s[1..]);
      }
    }
  }

  /** After collapsing, no carriage return remains and no newline follows
      another. */
  lemma {:induction false} CollapseCollapsed(s: string)
    ensures Collapsed(Collapse(s))
    decreases |s|
  {
    if |s| > 0 {
      if IsBreak(s[0]) {
        var t := SkipBreaks(s[1..]);
        CollapseCollapsed(t);
        var r := "\n" + Collapse(t);
        forall i | 0 <= i < |r| ensures r[i] != '\r' {
          if i > 0 { assert r[i] == Collapse(t)[i - 1]; }
        }
        forall i | 0 <= i < |r| - 1 ensures !(r[i] == '\n' && r[i + 1] == '\n') {
          if i > 0 { assert r[i] == Collapse(t)[i - 1] && r[i + 1] == Collapse(t)[i]; }
        }
      } else {
        CollapseCollapsed(s[1..]);
        var r := [s[0]] + Collapse(s[1..]);
        forall i | 0 <= i < |r| - 1 ensures !(r[i] == '\n' && r[i + 1] == '\n') {
          if i > 0 { assert r[i] == Collapse(s[1..])[i - 1] && r[i + 1] == Collapse(s[1..])[i]; }
        }
      }
    }
  }

  /** Text already free of carriage returns and doubled newlines is left as
      it is. */
  lemma {:induction false} CollapseFixes(s: string)
    requires Collapsed(s)
    ensures Collapse(s) == s
    decreases |s|
  {
    if |s| > 0 {
      assert Collapsed(s[1..]) by {
        forall i | 0 <= i < |s[1..]| - 1 ensures !(s[1..][i] == '\n' && s[1..][i + 1] == '\n') {
          assert s[1..][i] == s[i + 1] && s[1..][i + 1] == s[i + 2];
        }
      }
      if IsBreak(s[0]) {
        assert s[0] == '\n';
        assert SkipBreaks(s[1..]) == s[1..] by {
          if |s| > 1 { assert s[1] != '\r' && !(s[0] == '\n' && s[1] == '\n'); }
        }
      }
      CollapseFixes(s[1..]);
    }
  }

  // ------------------------------------------------------ replacements

  /** A pattern that cannot start at a newline, replaced by text that does
      not start with one: a string starts with a newline after the
      replacement exactly when it did before. */
  lemma {:induction false} ReplaceHead(s: string, pat: string, rep: string)
    requires |pat| > 0 && pat[0] != '\n' && |rep| > 0 && rep[0] != '\n'
    ensures |Text.Replace(s, pat, rep)| > 0 <==> |s| > 0
    ensures |s| > 0 ==> (Text.Replace(s, pat, rep)[0] == '\n' <==> s[0] == '\n')
  {
    if |s| >= |pat| && s[..|pat|] == pat {
      assert s[0] == pat[0];
    }
  }

  /** Such a replacement, with no newline in the pattern or the
      replacement, keeps a collapsed string collapsed. */
  lemma {:induction false} ReplaceKeepsCollapsed(s: string, pat: string, rep: string)
    requires Collapsed(s)
    requires |pat| > 0 && '\n' !in pat && |rep| > 0 && '\n' !in rep && '\r' !in rep
    ensures Collapsed(Text.Replace(s, pat, rep))
    decreases |s|
  {
    if |s| >= |pat| {
      var r := Text.Replace(s, pat, rep);
      if s[..|pat|] == pat {
        var t := s[|pat|..];
        assert Collapsed(t) by {
          forall i | 0 <= i < |t| - 1 ensures !(t[i] == '\n' && t[i + 1] == '\n') {
            assert t[i] == s[i + |pat|] && t[i + 1] == s[i + |pat| + 1];
          }
        }
        ReplaceKeepsCollapsed(t, pat, rep);
        ReplaceHead(t, pat, rep);
        var u := Text.Replace(t, pat, rep);
        assert r == rep + u;
        forall i | 0 <= i < |r| ensures r[i] != '\r' {
          if i >= |rep| { assert r[i] == u[i - |rep|]; }
        }
        forall i | 0 <= i < |r| - 1 ensures !(r[i] == '\n' && r[i + 1] == '\n') {
          if i >= |rep| { assert r[i] == u[i - |rep|] && r[i + 1] == u[i - |rep| + 1]; }
        }
      } else {
        var t := s[1..];
        assert Collapsed(t) by {
          forall i | 0 <= i < |t| - 1 ensures !(t[i] == '\n' && t[i + 1] == '\n') {
            assert t[i] == s[i + 1] && t[i + 1] == s[i + 2];
          }
        }
        ReplaceKeepsCollapsed(t, pat, rep);
        ReplaceHead(t, pat, rep);
        var u := Text.Replace(t, pat, rep);
        assert r == [s[0]] + u;
        forall i | 0 <= i < |r| ensures r[i] != '\r' {
          if i >= 1 { assert r[i] == u[i - 1]; }
        }
        forall i | 0 <= i < |r| - 1 ensures !(r[i] == '\n' && r[i + 1] == '\n') {
          if i >= 1 { assert r[i] == u[i - 1] && r[i + 1] == u[i]; }
          else if |u| > 0 { assert r[1] == u[0] && (u[0] == '\n' <==> t[0] == '\n') && t[0] == s[1]; }
        }
      }
    }
  }

  /** A character that the replacement does not contain is gone from the
      result when the pattern is that character. */
  lemma {:induction false} ReplaceRemoves(s: string, c: char, rep: string)
    requires c !in rep
    ensures c !in Text.Replace(s, [c], rep)
    decreases |s|
  {
    if |s| >= 1 {
      ReplaceRemoves(s[1..], c, rep);
    }
  }

  /** A replacement leaves absent any character absent from the string and
      from the replacement text. */
  lemma {:induction false} ReplaceAvoids(s: string, pat: string, rep: string, c: char)
    requires |pat| > 0 && c !in s && c !in rep
    ensures c !in Text.Replace(s, pat, rep)
    decreases |s|
  {
    if |s| >= |pat| {
      if s[..|pat|] == pat {
        ReplaceAvoids(s[|pat|..], pat, rep, c);
      } else {
        ReplaceAvoids(s[1..], pat, rep, c);
      }
    }
  }

  /** The same for pointwise substitution. */
  lemma SubstAvoids(s: string, a: char, b: char, c: char)
    requires c !in s && c != b
    ensures c !in Text.SubstChar(s, a, b)
  {
  }

  lemma SubstAbsent(s: string, a: char, b: char)
    requires a !in s
    ensures Text.SubstChar(s, a, b) == s
  {
  }

  /** A one-character pattern absent from the string is not contained. */
  lemma AbsentChar(s: string, c: char, p: string)
    requires |p| > 0 && p[0] == c && c !in s
    ensures !Text.Contains(s, p)
  {
    forall i | 0 <= i <= |s| - |p| ensures !Text.OccursAt(s, p, i) {
      assert s[i..i + |p|][0] == s[i];
    }
    Text.ContainsIffOccurs(s, p);
  }

  lemma SubstKeepsCollapsed(s: string, a: char, b: char)
    requires Collapsed(s) && a != '\n' && b != '\n' && b != '\r'
    ensures Collapsed(Text.SubstChar(s, a, b))
  {
  }

  // ---------------------------------------------------------- the steps

  const LeftDouble: char := '“'
  const RightDouble: char := '”'
  const LeftSingle: char := '‘'
  const RightSingle: char := '’'
  const Pilcrow: char := '¶'

  /** The characters the clean-up removes. */
  predicate Typographic(ch: char) {
    ch == LeftDouble || ch == RightDouble || ch == LeftSingle || ch == RightSingle || ch == Pilcrow || ch == '^' || ch == '\r'
  }

  /** `unTypography(string)`. */
  function UnTypography(s: string): (r: string)
    ensures Collapsed(r)
    ensures forall i :: 0 <= i < |r| ==> !Typographic(r[i])
  {
    var s1 := Collapse(s);
    var s2 := Text.Replace(s1, "^", "&#94;");
    var s3 := Text.Replace(s2, "&nbsp;", " ");
    var s4 := Text.Replace(s3, [LeftDouble, ' '], "\"");
    var s5 := Text.SubstChar(Text.SubstChar(s4, LeftDouble, '"'), RightDouble, '"');
    var s6 := Text.SubstChar(Text.SubstChar(s5, LeftSingle, '\''), RightSingle, '\'');
    var r := Text.SubstChar(s6, Pilcrow, ' ');
    Steps(s, s1, s2, s3, s4, s5, s6, r);
    r
  }

  lemma Steps(s: string, s1: string, s2: string, s3: string, s4: string, s5: string, s6: string, r: string)
    requires s1 == Collapse(s)
    requires s2 == Text.Replace(s1, "^", "&#94;")
    requires s3 == Text.Replace(s2, "&nbsp;", " ")
    requires s4 == Text.Replace(s3, [LeftDouble, ' '], "\"")
    requires s5 == Text.SubstChar(Text.SubstChar(s4, LeftDouble, '"'), RightDouble, '"')
    requires s6 == Text.SubstChar(Text.SubstChar(s5, LeftSingle, '\''), RightSingle, '\'')
    requires r == Text.SubstChar(s6, Pilcrow, ' ')
    ensures Collapsed(r)
    ensures forall i :: 0 <= i < |r| ==> !Typographic(r[i])
  {
    CollapseCollapsed(s);
    ReplaceKeepsCollapsed(s1, "^", "&#94;");
    ReplaceKeepsCollapsed(s2, "&nbsp;", " ");
    ReplaceKeepsCollapsed(s3, [LeftDouble, ' '], "\"");
    ReplaceRemoves(s1, '^', "&#94;");
    ReplaceAvoids(s2, "&nbsp;", " ", '^');
    ReplaceAvoids(s3, [LeftDouble, ' '], "\"", '^');
    ReplaceAvoids(s2, "&nbsp;", " ", '\r');
    ReplaceAvoids(s3, [LeftDouble, ' '], "\"", '\r');
  }

  /** Text with nothing to clean is returned unchanged. */
  lemma PlainUnchanged(s: string)
    requires Collapsed(s)
    requires forall i :: 0 <= i < |s| ==> !Typographic(s[i])
    requires !Text.Contains(s, "&nbsp;")
    ensures UnTypography(s) == s
  {
    CollapseFixes(s);
    AbsentChar(s, '^', "^");
    Text.ReplaceAbsent(s, "^", "&#94;");
    Text.ReplaceAbsent(s, "&nbsp;", " ");
    AbsentChar(s, LeftDouble, [LeftDouble, ' ']);
    Text.ReplaceAbsent(s, [LeftDouble, ' '], "\"");
    SubstAbsent(s, LeftDouble, '"');
    SubstAbsent(s, RightDouble, '"');
    SubstAbsent(s, LeftSingle, '\'');
    SubstAbsent(s, RightSingle, '\'');
    SubstAbsent(s, Pilcrow, ' ');
  }

  /** The space after an opening curly quote is swallowed with it. */
  lemma OpeningQuoteEatsSpace()
    ensures UnTypography([LeftDouble, ' ', 'a']) == "\"a"
  {
    var s: string := [LeftDouble, ' ', 'a'];
    assert Collapsed(s);
    CollapseFixes(s);
    assert !Text.Contains(s, "^") by {
      if Text.Contains(s, "^") {
        Text.ContainsIffOccurs(s, "^");
      }
    }
    Text.ReplaceAbsent(s, "^", "&#94;");
    assert !Text.Contains(s, "&nbsp;") by {
      Text.NotContainsShort(s, "&nbsp;");
    }
    Text.ReplaceAbsent(s, "&nbsp;", " ");
    assert s[..2] == [LeftDouble, ' '];
    assert Text.Replace(s, [LeftDouble, ' '], "\"") == "\"" + Text.Replace("a", [LeftDouble, ' '], "\"");
  }
}
