/** The wordcount plugin (wordcount.py): a rounded word count, a reading
    time at a configured number of words per minute, and a link count,
    attached to every content object that has a body. */
module WordCount {
  import opened Wrappers
  import opened Json
  import Text
  import Html

  const DefaultWpm: int := 200

  /** `pelican_init`: the `WORDCOUNT_WPM` setting, or 200 when it is unset,
      and whether the "no WORDCOUNT_WPM given" warning is logged (it is for
      any falsy value, also one that is then used). */
  function Configure(setting: Option<int>): (r: (int, bool))
    ensures setting.None? ==> r.0 == DefaultWpm
    ensures setting.Some? ==> r.0 == setting.value
    ensures r.1 <==> setting.None? || setting.value == 0
  {
    match setting
    case None => (DefaultWpm, true)
    case Some(n) => (n, n == 0)
  }

  /** `round(n, -1)` on an int: the nearest multiple of ten, a tie going to
      the even multiple. */
  function RoundTen(n: nat): (r: nat)
    ensures r % 10 == 0
    ensures n - 5 <= r <= n + 5
    ensures (r == n - 5 || r == n + 5) ==> (r / 10) % 2 == 0
  {
    var q, m := n / 10, n % 10;
    if m < 5 || (m == 5 && q % 2 == 0) then 10 * q else 10 * (q + 1)
  }

  function Dist(a: int, b: int): nat {
    if a <= b then b - a else a - b
  }

  /** No multiple of ten is nearer to `n` than `RoundTen(n)`. */
  lemma RoundTenNearest(n: nat, m: int)
    requires m % 10 == 0
    ensures Dist(RoundTen(n), n) <= Dist(m, n)
  {
  }

  /** The three properties pin the result down: any multiple of ten within
      five of `n`, even on a tie, is `RoundTen(n)`. */
  lemma RoundTenUnique(n: nat, r: int)
    requires r % 10 == 0 && n - 5 <= r <= n + 5
    requires (r == n - 5 || r == n + 5) ==> (r / 10) % 2 == 0
    ensures r == RoundTen(n)
  {
    var q, m := n / 10, n % 10;
    assert n == 10 * q + m;
    assert r == 10 * (r / 10);
  }

  /** Python's `n // d`: the floor of the quotient, also for a negative
      divisor. */
  function FloorDiv(n: int, d: int): (q: int)
    requires d != 0
    ensures d > 0 ==> d * q <= n < d * q + d
    ensures d < 0 ==> d * q + d < n <= d * q
  {
    if d > 0 then n / d else (-n) / (-d)
  }

  /** `est_read_time`: whole minutes, or "< 1" when that is zero. */
  datatype ReadTime = Minutes(m: int) | UnderOne

  /** The attributes `content_object_init` sets, each absent until its
      assignment runs. */
  datatype Attrs = Attrs(wordCount: Option<int>, wpm: Option<int>, readTime: Option<ReadTime>, linkCount: Option<nat>)

  const Unset := Attrs(None, None, None, None)

  /** `content_object_init`: a body of None sets nothing; otherwise the
      word count and the rate are set, then a rate of zero raises before
      the reading time and the link count are. */
  function Measure(content: Option<Html.Body>, wpm: int): (r: (Attrs, Option<Error>))
    ensures content.None? ==> r == (Unset, None)
    ensures content.Some? ==>
              var n := |Text.Words(content.value.text)|;
              && r.0.wordCount.Some? && r.0.wordCount.value % 10 == 0
              && n - 5 <= r.0.wordCount.value <= n + 5
              && r.0.wpm == Some(wpm)
              && (wpm == 0 <==> r.1 == Some(ZeroDivisionError))
              && (wpm == 0 <==> r.0.readTime.None?)
              && (wpm == 0 <==> r.0.linkCount.None?)
    ensures content.Some? && wpm != 0 ==>
              r.0.linkCount == Some(Html.CountIf(content.value.anchors, Html.Linked))
  {
    match content
    case None => (Unset, None)
    case Some(body) =>
      var n := |Text.Words(body.text)|;
      var counted := Attrs(Some(RoundTen(n)), Some(wpm), None, None);
      if wpm == 0 then (counted, Some(ZeroDivisionError))
      else
        var q := FloorDiv(n, wpm);
        var t := if q == 0 then UnderOne else Minutes(q);
        (counted.(readTime := Some(t), linkCount := Some(Html.CountIf(body.anchors, Html.Linked))), None)
  }

  /** At a positive rate the reading time is "< 1" exactly for texts of
      fewer words than the rate, and otherwise never overstates it. */
  lemma ReadTimeAtRate(body: Html.Body, wpm: int)
    requires wpm > 0
    ensures var n := |Text.Words(body.text)|;
            var t := Measure(Some(body), wpm).0.readTime;
            && t.Some?
            && (t.value.UnderOne? <==> n < wpm)
            && (t.value.Minutes? ==> t.value.m >= 1 && wpm * t.value.m <= n < wpm * t.value.m + wpm)
  {
    FloorDivSmall(|Text.Words(body.text)|, wpm);
  }

  /** For a count and a positive rate the quotient is zero exactly below
      the rate, and positive otherwise. */
  lemma FloorDivSmall(n: nat, d: int)
    requires d > 0
    ensures FloorDiv(n, d) >= 0
    ensures FloorDiv(n, d) == 0 <==> n < d
  {
  }
}
