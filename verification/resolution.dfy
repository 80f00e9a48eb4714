/** The promises of `getPostJson` (perma_social/common.py:115-155 and
    perma_social.py:125-159) about one lookup: the ':' check, the order of
    the getters, read-only cache hits and the order of the work done for a
    freshly fetched post. */
module Resolution {
  import opened Wrappers
  import opened Json
  import opened Social
  import opened Engine
  import Traversal
  import Store
  import Bluesky

  // ------------------------------------------------------------ the guard

  /** The current plugin refuses a user id containing ':' before any getter
      runs: the only event is the lookup's own. */
  lemma ColonRefused(cfg: Config, w: World, r: Ref, getMedia: bool, path: seq<Ref>, fuel: nat)
    requires !cfg.a.Legacy() && fuel > 0
    requires r.userId.Some? && ':' in r.userId.value
    ensures Resolve(cfg, w, r, getMedia, path, fuel) == (w.Emit(Enter(r, path)), Err(NotImplementedError))
  {
  }

  /** The earlier plugin has no such check: the cache getter is tried
      whatever the user id holds. */
  lemma LegacyHasNoColonCheck(cfg: Config, w: World, r: Ref, getMedia: bool, path: seq<Ref>, fuel: nat)
    requires cfg.a.Legacy() && fuel > 0
    ensures var t := Resolve(cfg, w, r, getMedia, path, fuel).0.trace;
            |t| > |w.trace| + 1 && t[|w.trace|] == Enter(r, path) && t[|w.trace| + 1] == Attempt(Cache, r)
  {
    var w1 := w.Emit(Enter(r, path));
    var w0 := w1.Emit(Attempt(Cache, r));
    var t := Resolve(cfg, w, r, getMedia, path, fuel).0.trace;
    FirstAttempt(cfg, w1, r, getMedia, path, fuel - 1, 0, TypeError);
    assert t[|w.trace|] == t[..|w0.trace|][|w.trace|];
    assert t[|w.trace| + 1] == t[..|w0.trace|][|w.trace| + 1];
  }

  // ------------------------------------------------------------ the getters

  /** The getter loop starts by trying getter `i`. */
  lemma FirstAttempt(cfg: Config, w: World, r: Ref, getMedia: bool, path: seq<Ref>, child: nat, i: nat, last: Error)
    requires i < |Getters(cfg.a)|
    ensures Prefix(w.trace + [Attempt(Getters(cfg.a)[i], r)], TryGetters(cfg, w, r, getMedia, path, child, i, last).0.trace)
  {
    var gs := Getters(cfg.a);
    var w0 := w.Emit(Attempt(gs[i], r));
    var got := RunGetter(cfg, w0, gs[i], r);
    var res := TryGetters(cfg, w, r, getMedia, path, child, i, last);
    match got.1
    case Err(e) =>
      PrefixTrans(w0.trace, got.0.trace, res.0.trace);
    case Ok(v) =>
      match Season(cfg.a, v.0, r)
      case Err(e) =>
        PrefixTrans(w0.trace, got.0.trace, res.0.trace);
      case Ok(r2) =>
        if v.1 {
          var done := FollowUp(cfg, got.0, v.0, r2, getMedia, path, child);
          PrefixTrans(w0.trace, got.0.trace, done.0.trace);
          if done.1.Err? {
            PrefixTrans(w0.trace, done.0.trace, res.0.trace);
          }
        }
  }

  /** The `Attempt` events of trying the getters `gs` in order. */
  function Attempts(gs: seq<Getter>, r: Ref): (t: seq<Event>)
    ensures |t| == |gs| && forall k :: 0 <= k < |gs| ==> t[k] == Attempt(gs[k], r)
  {
    if gs == [] then [] else [Attempt(gs[0], r)] + Attempts(gs[1..], r)
  }

  /** A getter's outcome does not depend on the events recorded so far. */
  lemma RunGetterTraceFree(cfg: Config, w: World, g: Getter, r: Ref, t: seq<Event>)
    ensures RunGetter(cfg, w.(trace := t), g, r)
         == (RunGetter(cfg, w, g, r).0.(trace := t), RunGetter(cfg, w, g, r).1)
  {
    if g == SkeetApi {
      Bluesky.SkeetApiTraceFree(cfg.env, w, r, cfg.a.Legacy(), t);
    }
  }

  /** When every getter from `i` on fails without changing anything, each is
      tried once, in `JSON_GETTERS` order, and the last one's exception is
      raised. */
  lemma {:induction false} AllGettersFail(cfg: Config, w: World, r: Ref, getMedia: bool, path: seq<Ref>, child: nat, i: nat, last: Error, errs: seq<Error>)
    requires i < |Getters(cfg.a)| && |errs| == |Getters(cfg.a)|
    requires forall k :: i <= k < |Getters(cfg.a)| ==> RunGetter(cfg, w, Getters(cfg.a)[k], r) == (w, Err(errs[k]))
    ensures TryGetters(cfg, w, r, getMedia, path, child, i, last)
         == (w.(trace := w.trace + Attempts(Getters(cfg.a)[i..], r)), Err(errs[|errs| - 1]))
    decreases |Getters(cfg.a)| - i
  {
    var gs := Getters(cfg.a);
    var w0 := w.Emit(Attempt(gs[i], r));
    StillFails(cfg, w, r, i, |gs|, errs, w0.trace);
    assert w0 == w.(trace := w0.trace);
    GetterFails(cfg, w, r, getMedia, path, child, i, last, errs[i]);
    AttemptsStep(gs, i, |gs|, r, w.trace);
    assert gs[i..|gs|] == gs[i..] && gs[i + 1..|gs|] == gs[i + 1..];
    if i + 1 < |gs| {
      AllGettersFail(cfg, w0, r, getMedia, path, child, i + 1, errs[i], errs);
    }
  }

  /** Getters that fail without changing anything still fail once more
      events have been recorded. */
  lemma StillFails(cfg: Config, w: World, r: Ref, i: nat, m: nat, errs: seq<Error>, t: seq<Event>)
    requires i <= m <= |Getters(cfg.a)| && |errs| == |Getters(cfg.a)|
    requires forall k :: i <= k < m ==> RunGetter(cfg, w, Getters(cfg.a)[k], r) == (w, Err(errs[k]))
    ensures forall k :: i <= k < m ==> RunGetter(cfg, w.(trace := t), Getters(cfg.a)[k], r) == (w.(trace := t), Err(errs[k]))
  {
    forall k | i <= k < m
      ensures RunGetter(cfg, w.(trace := t), Getters(cfg.a)[k], r) == (w.(trace := t), Err(errs[k]))
    {
      RunGetterTraceFree(cfg, w, Getters(cfg.a)[k], r, t);
    }
  }

  /** The attempts of getters `i` to `j - 1`: getter `i`'s, then the rest. */
  lemma AttemptsStep(gs: seq<Getter>, i: nat, j: nat, r: Ref, t: seq<Event>)
    requires i < j <= |gs|
    ensures t + [Attempt(gs[i], r)] + Attempts(gs[i + 1..j], r) == t + Attempts(gs[i..j], r)
    ensures i + 1 == j ==> t + [Attempt(gs[i], r)] == t + Attempts(gs[i..j], r)
  {
    assert gs[i..j][1..] == gs[i + 1..j];
    assert Attempts(gs[i..j], r) == [Attempt(gs[i], r)] + Attempts(gs[i + 1..j], r);
  }

  /** Recording one event and then more is recording them all at once. */
  lemma EmitThen(w: World, e: Event, t: seq<Event>)
    ensures w.Emit(e).(trace := w.Emit(e).trace + t) == w.(trace := w.trace + [e] + t)
  {
  }

  /** Getters that fail without changing anything are passed over, and the
      first that succeeds ends the lookup: its record is returned, after the
      follow-up work when it is new work, and no later getter is tried. */
  lemma {:induction false} FirstSuccessWins(cfg: Config, w: World, r: Ref, getMedia: bool, path: seq<Ref>, child: nat, i: nat, last: Error, m: nat, errs: seq<Error>)
    requires i <= m < |Getters(cfg.a)| && |errs| == |Getters(cfg.a)|
    requires forall k :: i <= k < m ==> RunGetter(cfg, w, Getters(cfg.a)[k], r) == (w, Err(errs[k]))
    requires var got := RunGetter(cfg, w.(trace := w.trace + Attempts(Getters(cfg.a)[i..m + 1], r)), Getters(cfg.a)[m], r);
             got.1.Ok? && Season(cfg.a, got.1.value.0, r).Ok?
             && (got.1.value.1 ==> FollowUp(cfg, got.0, got.1.value.0, Season(cfg.a, got.1.value.0, r).value, getMedia, path, child).1.Ok?)
    ensures var got := RunGetter(cfg, w.(trace := w.trace + Attempts(Getters(cfg.a)[i..m + 1], r)), Getters(cfg.a)[m], r);
            TryGetters(cfg, w, r, getMedia, path, child, i, last)
              == (if got.1.value.1
                  then FollowUp(cfg, got.0, got.1.value.0, Season(cfg.a, got.1.value.0, r).value, getMedia, path, child).0
                  else got.0,
                  Ok(got.1.value.0))
    decreases m - i
  {
    var gs := Getters(cfg.a);
    var w0 := w.Emit(Attempt(gs[i], r));
    AttemptsStep(gs, i, m + 1, r, w.trace);
    EmitThen(w, Attempt(gs[i], r), Attempts(gs[i + 1..m + 1], r));
    if i < m {
      StillFails(cfg, w, r, i, m, errs, w0.trace);
      assert w0 == w.(trace := w0.trace);
      GetterFails(cfg, w, r, getMedia, path, child, i, last, errs[i]);
      FirstSuccessWins(cfg, w0, r, getMedia, path, child, i + 1, errs[i], m, errs);
    } else {
      SucceedsHere(cfg, w, r, getMedia, path, child, i, last);
    }
  }

  /** The case of `FirstSuccessWins` where the first getter tried is the
      one that succeeds. */
  lemma SucceedsHere(cfg: Config, w: World, r: Ref, getMedia: bool, path: seq<Ref>, child: nat, i: nat, last: Error)
    requires i < |Getters(cfg.a)|
    requires var got := RunGetter(cfg, w.(trace := w.trace + Attempts(Getters(cfg.a)[i..i + 1], r)), Getters(cfg.a)[i], r);
             got.1.Ok? && Season(cfg.a, got.1.value.0, r).Ok?
             && (got.1.value.1 ==> FollowUp(cfg, got.0, got.1.value.0, Season(cfg.a, got.1.value.0, r).value, getMedia, path, child).1.Ok?)
    ensures var got := RunGetter(cfg, w.(trace := w.trace + Attempts(Getters(cfg.a)[i..i + 1], r)), Getters(cfg.a)[i], r);
            TryGetters(cfg, w, r, getMedia, path, child, i, last)
              == (if got.1.value.1
                  then FollowUp(cfg, got.0, got.1.value.0, Season(cfg.a, got.1.value.0, r).value, getMedia, path, child).0
                  else got.0,
                  Ok(got.1.value.0))
  {
    var gs := Getters(cfg.a);
    assert gs[i..i + 1] == [gs[i]];
    assert Attempts(gs[i..i + 1], r) == [Attempt(gs[i], r)];
    assert w.Emit(Attempt(gs[i], r)) == w.(trace := w.trace + Attempts(gs[i..i + 1], r));
    GetterSucceeds(cfg, w, r, getMedia, path, child, i, last);
  }

  /** One step of the loop when getter `i` fails without changing anything. */
  lemma GetterFails(cfg: Config, w: World, r: Ref, getMedia: bool, path: seq<Ref>, child: nat, i: nat, last: Error, e: Error)
    requires i < |Getters(cfg.a)|
    requires RunGetter(cfg, w.Emit(Attempt(Getters(cfg.a)[i], r)), Getters(cfg.a)[i], r) == (w.Emit(Attempt(Getters(cfg.a)[i], r)), Err(e))
    ensures TryGetters(cfg, w, r, getMedia, path, child, i, last)
         == TryGetters(cfg, w.Emit(Attempt(Getters(cfg.a)[i], r)), r, getMedia, path, child, i + 1, e)
  {
  }

  /** One step of the loop when getter `i` succeeds. */
  lemma GetterSucceeds(cfg: Config, w: World, r: Ref, getMedia: bool, path: seq<Ref>, child: nat, i: nat, last: Error)
    requires i < |Getters(cfg.a)|
    requires var got := RunGetter(cfg, w.Emit(Attempt(Getters(cfg.a)[i], r)), Getters(cfg.a)[i], r);
             got.1.Ok? && Season(cfg.a, got.1.value.0, r).Ok?
             && (got.1.value.1 ==> FollowUp(cfg, got.0, got.1.value.0, Season(cfg.a, got.1.value.0, r).value, getMedia, path, child).1.Ok?)
    ensures var got := RunGetter(cfg, w.Emit(Attempt(Getters(cfg.a)[i], r)), Getters(cfg.a)[i], r);
            TryGetters(cfg, w, r, getMedia, path, child, i, last)
              == (if got.1.value.1
                  then FollowUp(cfg, got.0, got.1.value.0, Season(cfg.a, got.1.value.0, r).value, getMedia, path, child).0
                  else got.0,
                  Ok(got.1.value.0))
  {
  }

  /** A cache hit writes nothing, downloads nothing and looks nothing else
      up: the lookup records its own start and the cache attempt, and
      returns the cached record. */
  lemma CacheHitReadOnly(cfg: Config, w: World, r: Ref, getMedia: bool, path: seq<Ref>, fuel: nat, json: Json)
    requires fuel > 0 && Admit(cfg, r).Ok?
    requires CacheGet(cfg.a, w.disk, r) == Ok((json, false)) && Season(cfg.a, json, r).Ok?
    ensures Resolve(cfg, w, r, getMedia, path, fuel)
         == (w.(trace := w.trace + [Enter(r, path), Attempt(Cache, r)]), Ok(json))
  {
    var w1 := w.Emit(Enter(r, path));
    var gs := Getters(cfg.a);
    assert gs[0..1] == [Cache];
    assert Attempts([Cache], r) == [Attempt(Cache, r)];
    FirstSuccessWins(cfg, w1, r, getMedia, path, fuel - 1, 0, TypeError, 0, seq(|gs|, k => TypeError));
    assert w1.trace + [Attempt(Cache, r)] == w.trace + [Enter(r, path), Attempt(Cache, r)];
  }

  /** A Mastodon reference without a user (a reply parent) is never served
      from the cache: the path of its cached copy needs the record's
      account, and the cache getter passes an empty record. */
  lemma NoUserNeverCached(a: Adapter, disk: map<string, File>, r: Ref)
    requires a.Fedi() && (r.userId.None? || r.userId == Some(""))
    ensures CacheGet(a, disk, r) == Err(KeyError("account"))
  {
  }

  // --------------------------------------------------------------- new work

  /** The first event of the related-posts loop, if any, starts a lookup. */
  lemma {:induction false} RecurseAllStarts(cfg: Config, w: World, rel: Yield<Ref>, k: nat, r: Ref, path: seq<Ref>, child: nat)
    requires k <= |rel.items|
    ensures var t := RecurseAll(cfg, w, rel, k, r, path, child).0.trace;
            |t| > |w.trace| ==> t[|w.trace|].Enter? || t[|w.trace|].Overflow?
    decreases |rel.items| - k
  {
    if k < |rel.items| {
      if rel.items[k] in path {
        RecurseAllStarts(cfg, w, rel, k + 1, r, path, child);
      } else {
        var sub := Resolve(cfg, w, rel.items[k], true, path + [r], child);
        Traversal.ResolveSound(cfg, w, rel.items[k], true, path + [r], child, false);
        var t := RecurseAll(cfg, w, rel, k, r, path, child).0.trace;
        assert t[|w.trace|] == t[..|sub.0.trace|][|w.trace|];
      }
    }
  }

  /** New work is done in order: the record is saved first, then only media
      is fetched (when asked for), and the next thing that happens, if
      anything, is the lookup of a related post. */
  lemma WriteBeforeRecurse(cfg: Config, w: World, json: Json, r: Ref, getMedia: bool, path: seq<Ref>, child: nat, p: string)
    requires PostPath(cfg.a, json, r, "") == Ok(p)
    ensures var t := FollowUp(cfg, w, json, r, getMedia, path, child).0.trace;
            var w1 := w.Put(p, Doc(json), Save(p));
            var m := if getMedia then SaveMedia(cfg, w1, json, r).0 else w1;
            |t| > |w.trace| && t[|w.trace|] == Save(p)
            && MediaAfter(w1.trace, m.trace) && Prefix(m.trace, t)
            && (|t| > |m.trace| ==> t[|m.trace|].Enter? || t[|m.trace|].Overflow?)
  {
    var w1 := w.Put(p, Doc(json), Save(p));
    var mm := if getMedia then SaveMedia(cfg, w1, json, r) else (w1, Ok(()));
    var t := FollowUp(cfg, w, json, r, getMedia, path, child).0.trace;
    if mm.1.Ok? {
      var rel := RelatedOf(cfg, mm.0, json, r);
      RecurseAllStarts(cfg, rel.0, rel.1, 0, r, path, child);
    }
    assert Prefix(w1.trace, t) by {
      PrefixTrans(w1.trace, mm.0.trace, t);
    }
    assert t[|w.trace|] == t[..|w1.trace|][|w.trace|];
  }

  /** A post that lists itself as related is looked up once more (the guard
      compares with the path before it), and that lookup stops at once
      because the record just saved is now a cache hit. */
  lemma SelfRelatedStopsAtCache(cfg: Config, w: World, json: Json, r: Ref, path: seq<Ref>, child: nat, p: string)
    requires !cfg.a.Fedi() && child >= 1 && r !in path && Admit(cfg, r).Ok?
    requires Store.BasePath(cfg.a, r, "") == Ok(p)
    requires RelatedOf(cfg, w.Put(p, Doc(json), Save(p)), json, r).1 == Yield([r], None)
    ensures var w1 := w.Put(p, Doc(json), Save(p));
            var w2 := RelatedOf(cfg, w1, json, r).0;
            FollowUp(cfg, w, json, r, false, path, child)
              == (w2.(trace := w1.trace + [Enter(r, path + [r]), Attempt(Cache, r)]), Ok(()))
  {
    var w1 := w.Put(p, Doc(json), Save(p));
    var rel := RelatedOf(cfg, w1, json, r);
    var w2 := rel.0;
    assert PostPath(cfg.a, json, r, "") == Ok(p);
    assert CacheGet(cfg.a, w2.disk, r) == Ok((json, false));
    CacheHitReadOnly(cfg, w2, r, true, path + [r], child, json);
    var sub := Resolve(cfg, w2, r, true, path + [r], child);
    assert RecurseAll(cfg, w2, rel.1, 0, r, path, child) == RecurseAll(cfg, sub.0, rel.1, 1, r, path, child);
    assert FollowUp(cfg, w, json, r, false, path, child) == RecurseAll(cfg, w2, rel.1, 0, r, path, child);
  }
}
