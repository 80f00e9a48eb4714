/** What the `_traversed` guard of `getPostJson` guarantees about the
    lookups a run makes (perma_social/common.py:136-142). Every lookup is
    recorded as an `Enter` (or, past the recursion limit, an `Overflow`)
    event carrying its reference and the path it was called with. */
module Traversal {
  import opened Wrappers
  import opened Json
  import opened Social
  import opened Engine

  /** A call chain in which a reference repeats only right after itself:
      the guard compares a related post with the path *before* the current
      reference, so a post that relates to itself is looked up once more. */
  predicate Chain(s: seq<Ref>) {
    forall i, j :: 0 <= i < j < |s| && s[i] == s[j] ==> j == i + 1
  }

  /** A lookup event whose chain (path, then reference) is a `Chain` when the
      adapter never renames references, and an overflow exactly at the
      recursion limit `budget`. */
  predicate Sound(e: Event, budget: nat, settled: bool) {
    (e.Enter? || e.Overflow?) ==>
      (settled ==> Chain(e.path + [e.ref])) && (e.Overflow? ==> |e.path| == budget)
  }

  /** A lookup event made strictly below a caller whose path is `path`:
      its own path extends `path`, which no call changed. */
  predicate Below(e: Event, path: seq<Ref>) {
    (e.Enter? || e.Overflow?) ==> |e.path| > |path| && e.path[..|path|] == path
  }

  /** The events appended from `t0` to `t1` are all sound lookups below `path`. */
  predicate Under(t0: seq<Event>, t1: seq<Event>, path: seq<Ref>, budget: nat, settled: bool) {
    Prefix(t0, t1) && forall k :: |t0| <= k < |t1| ==> Below(t1[k], path) && Sound(t1[k], budget, settled)
  }

  /** The first event of `getPostJson(r, _traversed=path)`. */
  predicate Starts(e: Event, r: Ref, path: seq<Ref>) {
    e == Enter(r, path) || e == Overflow(r, path)
  }

  lemma UnderTrans(t0: seq<Event>, t1: seq<Event>, t2: seq<Event>, path: seq<Ref>, budget: nat, settled: bool)
    requires Under(t0, t1, path, budget, settled) && Under(t1, t2, path, budget, settled)
    ensures Under(t0, t2, path, budget, settled)
  {
    PrefixTrans(t0, t1, t2);
    forall k | |t0| <= k < |t2|
      ensures Below(t2[k], path) && Sound(t2[k], budget, settled)
    {
      if k < |t1| {
        assert t2[k] == t2[..|t1|][k];
      }
    }
  }

  lemma UnderMedia(t0: seq<Event>, t1: seq<Event>, path: seq<Ref>, budget: nat, settled: bool)
    requires MediaAfter(t0, t1)
    ensures Under(t0, t1, path, budget, settled)
  {
  }

  /** Lookups below a child's path are below the caller's path too. */
  lemma UnderNested(t0: seq<Event>, t1: seq<Event>, path: seq<Ref>, r: Ref, budget: nat, settled: bool)
    requires Under(t0, t1, path + [r], budget, settled)
    ensures Under(t0, t1, path, budget, settled)
  {
    forall k | |t0| <= k < |t1|
      ensures Below(t1[k], path)
    {
      var e := t1[k];
      if e.Enter? || e.Overflow? {
        assert e.path[..|path|] == e.path[..|path| + 1][..|path|];
      }
    }
  }

  /** Appending a reference that is not on the path keeps a chain a chain. */
  lemma ChainStep(path: seq<Ref>, r: Ref, c: Ref)
    requires Chain(path + [r]) && c !in path
    ensures Chain(path + [r] + [c])
  {
    var s := path + [r] + [c];
    forall i, j | 0 <= i < j < |s| && s[i] == s[j]
      ensures j == i + 1
    {
      if j == |s| - 1 && i < |path| {
        assert s[i] == path[i];
      } else if j < |s| - 1 {
        assert s[i] == (path + [r])[i] && s[j] == (path + [r])[j];
      }
    }
  }

  /** `getPostJson(r, _traversed=path)` with `fuel` levels left: its first
      event is its own, and everything after it is a sound lookup below
      `path`. Overflows happen exactly `fuel` levels down. */
  lemma {:induction false} ResolveSound(cfg: Config, w: World, r: Ref, getMedia: bool, path: seq<Ref>, fuel: nat, settled: bool)
    requires settled ==> !cfg.a.Fedi() && Chain(path + [r])
    ensures var t := Resolve(cfg, w, r, getMedia, path, fuel).0.trace;
            |t| > |w.trace| && Starts(t[|w.trace|], r, path) && Sound(t[|w.trace|], |path| + fuel, settled)
            && Under(t[..|w.trace| + 1], t, path, |path| + fuel, settled)
    decreases fuel, 4, 0
  {
    var t := Resolve(cfg, w, r, getMedia, path, fuel).0.trace;
    var n := |w.trace|;
    if fuel == 0 {
      assert t == w.trace + [Overflow(r, path)];
      assert t[..n + 1] == t;
    } else {
      var w1 := w.Emit(Enter(r, path));
      assert t[..n + 1] == w1.trace by {
        assert Prefix(w1.trace, t);
      }
      if Admit(cfg, r).Ok? {
        TryGettersSound(cfg, w1, r, getMedia, path, fuel - 1, 0, TypeError, settled);
      } else {
        assert t == w1.trace;
      }
    }
  }

  lemma {:induction false} TryGettersSound(cfg: Config, w: World, r: Ref, getMedia: bool, path: seq<Ref>, child: nat, i: nat, last: Error, settled: bool)
    requires i <= |Getters(cfg.a)|
    requires settled ==> !cfg.a.Fedi() && Chain(path + [r])
    ensures Under(w.trace, TryGetters(cfg, w, r, getMedia, path, child, i, last).0.trace, path, |path| + 1 + child, settled)
    decreases child + 1, 3, |Getters(cfg.a)| - i
  {
    var gs := Getters(cfg.a);
    var budget := |path| + 1 + child;
    if i < |gs| {
      var w0 := w.Emit(Attempt(gs[i], r));
      var got := RunGetter(cfg, w0, gs[i], r);
      assert Under(w.trace, got.0.trace, path, budget, settled);
      var res := TryGetters(cfg, w, r, getMedia, path, child, i, last);
      if got.1.Err? || Season(cfg.a, got.1.value.0, r).Err? {
        var e := if got.1.Err? then got.1.error else Season(cfg.a, got.1.value.0, r).error;
        TryAfterError(cfg, w, r, getMedia, path, child, i, last);
        TryGettersSound(cfg, got.0, r, getMedia, path, child, i + 1, e, settled);
        UnderTrans(w.trace, got.0.trace, res.0.trace, path, budget, settled);
      } else if got.1.value.1 {
        var r2 := Season(cfg.a, got.1.value.0, r).value;
        var done := FollowUp(cfg, got.0, got.1.value.0, r2, getMedia, path, child);
        TryAfterFollowUp(cfg, w, r, getMedia, path, child, i, last);
        FollowUpSound(cfg, got.0, got.1.value.0, r2, getMedia, path, child, settled);
        UnderTrans(w.trace, got.0.trace, done.0.trace, path, budget, settled);
        if done.1.Err? {
          TryGettersSound(cfg, done.0, r2, getMedia, path, child, i + 1, done.1.error, settled);
          UnderTrans(w.trace, done.0.trace, res.0.trace, path, budget, settled);
        }
      } else {
        TryAfterCached(cfg, w, r, getMedia, path, child, i, last);
      }
    }
  }

  /** A getter that fails, or whose record cannot be seasoned, passes the
      lookup on to the next getter. */
  lemma TryAfterError(cfg: Config, w: World, r: Ref, getMedia: bool, path: seq<Ref>, child: nat, i: nat, last: Error)
    requires i < |Getters(cfg.a)|
    requires var got := RunGetter(cfg, w.Emit(Attempt(Getters(cfg.a)[i], r)), Getters(cfg.a)[i], r);
             got.1.Err? || Season(cfg.a, got.1.value.0, r).Err?
    ensures var got := RunGetter(cfg, w.Emit(Attempt(Getters(cfg.a)[i], r)), Getters(cfg.a)[i], r);
            var e := if got.1.Err? then got.1.error else Season(cfg.a, got.1.value.0, r).error;
            TryGetters(cfg, w, r, getMedia, path, child, i, last) == TryGetters(cfg, got.0, r, getMedia, path, child, i + 1, e)
  {
  }

  /** A getter that finds new work does the follow-up work, and the next
      getter is tried only when that fails. */
  lemma TryAfterFollowUp(cfg: Config, w: World, r: Ref, getMedia: bool, path: seq<Ref>, child: nat, i: nat, last: Error)
    requires i < |Getters(cfg.a)|
    requires var got := RunGetter(cfg, w.Emit(Attempt(Getters(cfg.a)[i], r)), Getters(cfg.a)[i], r);
             got.1.Ok? && Season(cfg.a, got.1.value.0, r).Ok? && got.1.value.1
    ensures var got := RunGetter(cfg, w.Emit(Attempt(Getters(cfg.a)[i], r)), Getters(cfg.a)[i], r);
            var r2 := Season(cfg.a, got.1.value.0, r).value;
            var done := FollowUp(cfg, got.0, got.1.value.0, r2, getMedia, path, child);
            TryGetters(cfg, w, r, getMedia, path, child, i, last)
              == if done.1.Ok? then (done.0, Ok(got.1.value.0))
                 else TryGetters(cfg, done.0, r2, getMedia, path, child, i + 1, done.1.error)
  {
  }

  /** A getter that finds a cached record ends the lookup at once. */
  lemma TryAfterCached(cfg: Config, w: World, r: Ref, getMedia: bool, path: seq<Ref>, child: nat, i: nat, last: Error)
    requires i < |Getters(cfg.a)|
    requires var got := RunGetter(cfg, w.Emit(Attempt(Getters(cfg.a)[i], r)), Getters(cfg.a)[i], r);
             got.1.Ok? && Season(cfg.a, got.1.value.0, r).Ok? && !got.1.value.1
    ensures var got := RunGetter(cfg, w.Emit(Attempt(Getters(cfg.a)[i], r)), Getters(cfg.a)[i], r);
            TryGetters(cfg, w, r, getMedia, path, child, i, last) == (got.0, Ok(got.1.value.0))
  {
  }

  lemma {:induction false} FollowUpSound(cfg: Config, w: World, json: Json, r: Ref, getMedia: bool, path: seq<Ref>, child: nat, settled: bool)
    requires settled ==> !cfg.a.Fedi() && Chain(path + [r])
    ensures Under(w.trace, FollowUp(cfg, w, json, r, getMedia, path, child).0.trace, path, |path| + 1 + child, settled)
    decreases child + 1, 2, 0
  {
    var budget := |path| + 1 + child;
    if PostPath(cfg.a, json, r, "").Ok? {
      var p := PostPath(cfg.a, json, r, "").value;
      var w1 := w.Put(p, Doc(json), Save(p));
      var m := if getMedia then SaveMedia(cfg, w1, json, r) else (w1, Ok(()));
      assert Under(w.trace, w1.trace, path, budget, settled);
      assert MediaAfter(w1.trace, m.0.trace);
      UnderMedia(w1.trace, m.0.trace, path, budget, settled);
      UnderTrans(w.trace, w1.trace, m.0.trace, path, budget, settled);
      if m.1.Ok? {
        var rel := RelatedOf(cfg, m.0, json, r);
        RecurseAllSound(cfg, rel.0, rel.1, 0, r, path, child, settled);
        var res := RecurseAll(cfg, rel.0, rel.1, 0, r, path, child);
        UnderTrans(w.trace, m.0.trace, res.0.trace, path, budget, settled);
      }
    }
  }

  lemma {:induction false} RecurseAllSound(cfg: Config, w: World, rel: Yield<Ref>, k: nat, r: Ref, path: seq<Ref>, child: nat, settled: bool)
    requires k <= |rel.items|
    requires settled ==> !cfg.a.Fedi() && Chain(path + [r])
    ensures Under(w.trace, RecurseAll(cfg, w, rel, k, r, path, child).0.trace, path, |path| + 1 + child, settled)
    decreases child + 1, 1, |rel.items| - k
  {
    var budget := |path| + 1 + child;
    if k < |rel.items| {
      var c := rel.items[k];
      var res := RecurseAll(cfg, w, rel, k, r, path, child);
      if c in path {
        RecurseAllSound(cfg, w, rel, k + 1, r, path, child, settled);
      } else {
        ChildSound(cfg, w, c, r, path, child, settled);
        var sub := Resolve(cfg, w, c, true, path + [r], child);
        var t := sub.0.trace;
        if sub.1.Ok? {
          RecurseAllSound(cfg, sub.0, rel, k + 1, r, path, child, settled);
          UnderTrans(w.trace, t, res.0.trace, path, budget, settled);
        }
      }
    }
  }

  /** The lookup of one related post stays under the post's path. */
  lemma {:induction false} ChildSound(cfg: Config, w: World, c: Ref, r: Ref, path: seq<Ref>, child: nat, settled: bool)
    requires c !in path
    requires settled ==> !cfg.a.Fedi() && Chain(path + [r])
    ensures Under(w.trace, Resolve(cfg, w, c, true, path + [r], child).0.trace, path, |path| + 1 + child, settled)
    decreases child + 1, 0, 0
  {
    var budget := |path| + 1 + child;
    if settled {
      ChainStep(path, r, c);
    }
    assert path + [r] + [c] == (path + [r]) + [c];
    ResolveSound(cfg, w, c, true, path + [r], child, settled);
    var t := Resolve(cfg, w, c, true, path + [r], child).0.trace;
    var n := |w.trace|;
    assert Under(w.trace, t[..n + 1], path, budget, settled) by {
      assert (path + [r])[..|path|] == path;
    }
    UnderNested(t[..n + 1], t, path, r, budget, settled);
    UnderTrans(w.trace, t[..n + 1], t, path, budget, settled);
  }

  /** Every lookup appended after the first `n` events whose path has
      length `|path| + 1` is called with `path + [r]`, for a reference of
      `refs` that is not on `path`. */
  predicate Children(t: seq<Event>, n: nat, path: seq<Ref>, r: Ref, refs: seq<Ref>) {
    forall j :: n <= j < |t| ==> DirectChild(t[j], path, r, refs)
  }

  predicate DirectChild(e: Event, path: seq<Ref>, r: Ref, refs: seq<Ref>) {
    (e.Enter? || e.Overflow?) && |e.path| == |path| + 1 ==> e.path == path + [r] && e.ref !in path && e.ref in refs
  }

  /** The related posts a post's lookup enters directly are the ones not on
      the path before it, each called with the path plus the post itself:
      the caller's path is extended, never changed. */
  lemma {:induction false} RecurseAllChildren(cfg: Config, w: World, rel: Yield<Ref>, k: nat, r: Ref, path: seq<Ref>, child: nat)
    requires k <= |rel.items|
    ensures Children(RecurseAll(cfg, w, rel, k, r, path, child).0.trace, |w.trace|, path, r, rel.items[k..])
    decreases |rel.items| - k
  {
    var t := RecurseAll(cfg, w, rel, k, r, path, child).0.trace;
    if k < |rel.items| {
      var c := rel.items[k];
      assert rel.items[k + 1..] == rel.items[k..][1..];
      assert c == rel.items[k..][0];
      if c in path {
        RecurseAllChildren(cfg, w, rel, k + 1, r, path, child);
        forall j | |w.trace| <= j < |t|
          ensures DirectChild(t[j], path, r, rel.items[k..])
        {
          assert DirectChild(t[j], path, r, rel.items[k + 1..]);
        }
      } else {
        var sub := Resolve(cfg, w, c, true, path + [r], child);
        var n := |w.trace|;
        ResolveSound(cfg, w, c, true, path + [r], child, false);
        var ts := sub.0.trace;
        assert Children(ts, n, path, r, rel.items[k..]) by {
          forall j | n <= j < |ts|
            ensures DirectChild(ts[j], path, r, rel.items[k..])
          {
            if j > n {
              assert Below(ts[j], path + [r]);
            }
          }
        }
        if sub.1.Ok? {
          RecurseAllChildren(cfg, sub.0, rel, k + 1, r, path, child);
          forall j | n <= j < |t|
            ensures DirectChild(t[j], path, r, rel.items[k..])
          {
            if j < |ts| {
              assert t[j] == t[..|ts|][j];
            } else {
              assert DirectChild(t[j], path, r, rel.items[k + 1..]);
            }
          }
        }
      }
    }
  }

  // ------------------------------------------------------------ depth bound

  /** The references a chain mentions. */
  function Elems(s: seq<Ref>): set<Ref> {
    set x | x in s
  }

  /** 1 when the chain's last reference is not a repetition of the one before. */
  function Single(s: seq<Ref>): nat {
    if |s| >= 2 && s[|s| - 1] == s[|s| - 2] then 0 else 1
  }

  /** Each reference occurs at most twice in a chain, and then in adjacent
      places; so a chain is at most twice as long as the set of its
      references (one shorter when it does not end in a repetition). */
  lemma {:induction false} ChainLength(s: seq<Ref>)
    requires Chain(s) && |s| > 0
    ensures |s| + Single(s) <= 2 * |Elems(s)|
    decreases |s|
  {
    if |s| == 1 {
      assert Elems(s) == {s[0]};
    } else {
      var s' := s[..|s| - 1];
      var x := s[|s| - 1];
      ChainShorter(s);
      ChainLength(s');
      ElemsSnoc(s);
      if x in s' {
        RepeatIsAdjacent(s);
        assert Elems(s) == Elems(s');
      } else {
        assert x !in Elems(s');
        assert |Elems(s)| == |Elems(s')| + 1;
      }
    }
  }

  lemma ChainShorter(s: seq<Ref>)
    requires Chain(s) && |s| > 0
    ensures Chain(s[..|s| - 1])
  {
    var s' := s[..|s| - 1];
    forall i, j | 0 <= i < j < |s'| && s'[i] == s'[j]
      ensures j == i + 1
    {
      assert s[i] == s'[i] && s[j] == s'[j];
    }
  }

  lemma ElemsSnoc(s: seq<Ref>)
    requires |s| > 0
    ensures Elems(s) == Elems(s[..|s| - 1]) + {s[|s| - 1]}
  {
    assert s == s[..|s| - 1] + [s[|s| - 1]];
  }

  /** In a chain, a last reference that occurred before is the one just
      before it, and that one was not a repetition itself. */
  lemma RepeatIsAdjacent(s: seq<Ref>)
    requires Chain(s) && |s| >= 2 && s[|s| - 1] in s[..|s| - 1]
    ensures s[|s| - 2] == s[|s| - 1] && Single(s) == 0 && Single(s[..|s| - 1]) == 1
  {
    var s' := s[..|s| - 1];
    var i :| 0 <= i < |s'| && s'[i] == s[|s| - 1];
    assert s[i] == s'[i];
    assert |s'| >= 2 ==> s'[|s'| - 2] == s[|s| - 3];
  }

  /** Every reference of `s` is in `u`. */
  predicate Inside(s: seq<Ref>, u: set<Ref>) {
    forall x :: x in s ==> x in u
  }

  /** A chain drawn from a universe of references is at most twice as long. */
  lemma ChainBound(s: seq<Ref>, u: set<Ref>)
    requires Chain(s) && Inside(s, u)
    ensures |s| <= 2 * |u|
  {
    if |s| > 0 {
      ChainLength(s);
      assert Elems(s) <= u;
      SubsetCard(Elems(s), u);
    }
  }

  lemma SubsetCard(a: set<Ref>, b: set<Ref>)
    requires a <= b
    ensures |a| <= |b|
  {
    assert b == a + (b - a);
  }

  /** Termination of a top-level lookup for an adapter that never renames a
      reference (Twitter, Bluesky): with at least `2 * |u|` levels of
      recursion available, a lookup that hits the recursion limit has a
      call chain that leaves the universe `u`. So when every post reachable
      from `r` has its reference in `u`, the run ends without
      `RecursionError`. */
  lemma OverflowLeavesUniverse(cfg: Config, w: World, r: Ref, getMedia: bool, fuel: nat, u: set<Ref>)
    requires !cfg.a.Fedi() && fuel >= 2 * |u|
    ensures var t := Resolve(cfg, w, r, getMedia, [], fuel).0.trace;
            forall k :: |w.trace| <= k < |t| && t[k].Overflow? ==> !Inside(t[k].path + [t[k].ref], u)
  {
    var t := Resolve(cfg, w, r, getMedia, [], fuel).0.trace;
    assert Chain([] + [r]);
    ResolveSound(cfg, w, r, getMedia, [], fuel, true);
    forall k | |w.trace| <= k < |t| && t[k].Overflow?
      ensures !Inside(t[k].path + [t[k].ref], u)
    {
      var s := t[k].path + [t[k].ref];
      assert Sound(t[k], fuel, true) by {
        if k > |w.trace| {
          assert |t[..|w.trace| + 1]| == |w.trace| + 1;
        }
      }
      if Inside(s, u) {
        ChainBound(s, u);
      }
    }
  }
}
