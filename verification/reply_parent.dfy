/** The ':' check of the current `getPostJson` (perma_social/common.py:118)
    against the Mastodon reply parent (perma_social/perma_mastodon.py:131).
    The parent reference carries no user, so `":" in None` raises
    `TypeError` before any getter can fill the user in; the failure reaches
    the reply's own getter loop, which has already saved the reply, and the
    reply's lookup fails. With a guard that lets a missing user through, the
    parent is fetched from the API, seasoned with its account name, saved,
    and the reply's lookup succeeds. */
module ReplyParent {
  import opened Wrappers
  import opened Json
  import opened Social
  import opened Engine
  import Resolution
  import Mastodon

  /** A toot that replies to toot `pid`, with no links in its content. */
  function Reply(pid: string, content: string): Json {
    JObj(map["in_reply_to_id" := JStr(pid), "content" := JStr(content)])
  }

  /** A toot by `user` that replies to nothing, links nothing and has no
      media. */
  function Parent(user: string, content: string): Json {
    JObj(map["account" := JObj(map["username" := JStr(user)]), "content" := JStr(content), "media_attachments" := JArr([])])
  }

  /** The reply `r` is not cached yet and the API serves it as `Reply(pid, c)`. */
  predicate Scene(env: Env, w: World, r: Ref, inst: string, pid: string, c: string) {
    r.instance == Some(inst) && r.cls == Sub && r.userId.Some? && r.userId.value != "" && ':' !in r.userId.value
    && pid != "" && env.anchors(c) == []
    && CacheGet(Mastodon, w.disk, r).Err?
    && env.net(TootApi, r) == Ok(Reply(pid, c))
  }

  /** The reply's related posts are its parent alone, without a user. */
  lemma ReplyRelated(env: Env, r: Ref, inst: string, pid: string, c: string)
    requires r.instance == Some(inst) && pid != "" && env.anchors(c) == []
    ensures Mastodon.Related(env, Reply(pid, c), r, false) == Yield([TootRef(inst, pid, None)], None)
  {
    var json := Reply(pid, c);
    assert Get(json, "in_reply_to_id") == Ok(JStr(pid));
    assert Index(json, "content") == Ok(JStr(c));
    assert Mastodon.ContentLinks(env, json, false) == Yield([], None);
  }

  /** The parent's related posts and media are empty. */
  lemma ParentQuiet(env: Env, r: Ref, user: string, pc: string)
    requires env.anchors(pc) == []
    ensures Mastodon.Related(env, Parent(user, pc), r, false) == Yield([], None)
    ensures Mastodon.Media(Parent(user, pc), false) == Yield([], None)
  {
    var json := Parent(user, pc);
    assert Get(json, "in_reply_to_id") == Ok(JNull);
    assert Index(json, "content") == Ok(JStr(pc));
    assert Index(json, "media_attachments") == Ok(JArr([]));
  }

  /** The lookup of the reply up to its follow-up work: the cache misses,
      the API serves the reply, and the lookup's outcome is that of the
      follow-up work (there is no getter after the API). */
  lemma ReplyLookup(cfg: Config, w: World, r: Ref, inst: string, pid: string, c: string, fuel: nat)
    requires cfg.a == Mastodon && fuel > 0 && Scene(cfg.env, w, r, inst, pid, c)
    ensures var w1 := w.Emit(Enter(r, [])).Emit(Attempt(Cache, r)).Emit(Attempt(TootApi, r));
            var done := FollowUp(cfg, w1, Reply(pid, c), r, false, [], fuel - 1);
            Resolve(cfg, w, r, false, [], fuel) == (done.0, if done.1.Ok? then Ok(Reply(pid, c)) else Err(done.1.error))
  {
    var we := w.Emit(Enter(r, []));
    var e := CacheGet(Mastodon, w.disk, r).error;
    assert RunGetter(cfg, we.Emit(Attempt(Cache, r)), Cache, r) == (we.Emit(Attempt(Cache, r)), Err(e));
    Resolution.GetterFails(cfg, we, r, false, [], fuel - 1, 0, TypeError, e);
    assert Mastodon.ApiResult(Reply(pid, c), false) == Ok(Reply(pid, c));
  }

  /** The reply's follow-up work: save it, then look up the parent; the work
      fails exactly when the parent's lookup does. */
  lemma ReplyFollowUp(cfg: Config, w: World, r: Ref, inst: string, pid: string, c: string, child: nat, p: string)
    requires cfg.a == Mastodon && r.instance == Some(inst) && pid != "" && cfg.env.anchors(c) == []
    requires PostPath(Mastodon, Reply(pid, c), r, "") == Ok(p)
    ensures var w2 := w.Put(p, Doc(Reply(pid, c)), Save(p));
            var sub := Resolve(cfg, w2, TootRef(inst, pid, None), true, [r], child);
            FollowUp(cfg, w, Reply(pid, c), r, false, [], child) == (sub.0, if sub.1.Ok? then Ok(()) else Err(sub.1.error))
  {
    ReplyRelated(cfg.env, r, inst, pid, c);
    var w2 := w.Put(p, Doc(Reply(pid, c)), Save(p));
    var rel := RelatedOf(cfg, w2, Reply(pid, c), r);
    assert rel == (w2, Yield([TootRef(inst, pid, None)], None));
    var sub := Resolve(cfg, w2, TootRef(inst, pid, None), true, [r], child);
    assert [] + [r] == [r];
    assert RecurseAll(cfg, w2, rel.1, 0, r, [], child)
        == if sub.1.Err? then (sub.0, Err(sub.1.error)) else RecurseAll(cfg, sub.0, rel.1, 1, r, [], child);
  }

  /** As written: the reply is fetched and saved, and then its lookup fails
      with `TypeError`, raised by the ':' check on the parent. */
  lemma ReplyFailsAsWritten(env: Env, w: World, r: Ref, inst: string, pid: string, c: string, fuel: nat)
    requires fuel >= 2 && Scene(env, w, r, inst, pid, c)
    ensures var res := Resolve(Config(Mastodon, env, AsWritten), w, r, false, [], fuel);
            res.1 == Err(TypeError)
            && PostPath(Mastodon, Reply(pid, c), r, "").Ok?
            && res.0.disk == w.disk[PostPath(Mastodon, Reply(pid, c), r, "").value := Doc(Reply(pid, c))]
  {
    var cfg := Config(Mastodon, env, AsWritten);
    var json := Reply(pid, c);
    var p := PostPath(Mastodon, json, r, "").value;
    ReplyLookup(cfg, w, r, inst, pid, c, fuel);
    var w1 := w.Emit(Enter(r, [])).Emit(Attempt(Cache, r)).Emit(Attempt(TootApi, r));
    ReplyFollowUp(cfg, w1, r, inst, pid, c, fuel - 1, p);
  }

  /** The parent's follow-up work under its seasoned reference succeeds:
      it is saved and has no media and no related posts. */
  lemma ParentFollowUp(cfg: Config, w: World, r2: Ref, path: seq<Ref>, child: nat, user: string, pc: string)
    requires cfg.a == Mastodon && r2.userId == Some(user) && r2.instance.Some? && user != ""
    requires cfg.env.anchors(pc) == []
    ensures FollowUp(cfg, w, Parent(user, pc), r2, true, path, child).1 == Ok(())
  {
    var pj := Parent(user, pc);
    ParentQuiet(cfg.env, r2, user, pc);
    assert PostPath(Mastodon, pj, r2, "").Ok?;
    var p := PostPath(Mastodon, pj, r2, "").value;
    var w2 := w.Put(p, Doc(pj), Save(p));
    assert SaveMedia(cfg, w2, pj, r2) == (w2, Ok(()));
  }

  /** The API step of the parent's getter loop: the API serves the parent,
      seasoning gives it its account name, and its follow-up work succeeds. */
  lemma ParentApiStep(cfg: Config, w: World, parent: Ref, path: seq<Ref>, child: nat, user: string, pc: string, last: Error)
    requires cfg.a == Mastodon && parent.userId.None? && parent.instance.Some? && user != ""
    requires cfg.env.anchors(pc) == [] && cfg.env.net(TootApi, parent) == Ok(Parent(user, pc))
    ensures TryGetters(cfg, w, parent, true, path, child, 1, last).1 == Ok(Parent(user, pc))
  {
    var pj := Parent(user, pc);
    var w1 := w.Emit(Attempt(TootApi, parent));
    assert Getters(cfg.a)[1] == TootApi;
    assert Mastodon.ApiResult(pj, false) == Ok(pj);
    assert RunGetter(cfg, w1, TootApi, parent) == (w1, Ok((pj, true)));
    var r2 := parent.(userId := Some(user));
    assert Index(pj, "account") == Ok(JObj(map["username" := JStr(user)]));
    assert Season(Mastodon, pj, parent) == Ok(r2);
    ParentFollowUp(cfg, w1, r2, path, child, user, pc);
    Resolution.GetterSucceeds(cfg, w, parent, true, path, child, 1, last);
  }

  /** With the corrected guard, a parent the API serves is looked up in
      full: the cache cannot serve it, the API does, seasoning gives it its
      account name, and it is saved. */
  lemma ParentResolves(env: Env, w: World, parent: Ref, path: seq<Ref>, child: nat, user: string, pc: string)
    requires child >= 1 && parent.userId.None? && parent.instance.Some? && user != ""
    requires env.anchors(pc) == [] && env.net(TootApi, parent) == Ok(Parent(user, pc))
    ensures Resolve(Config(Mastodon, env, Tolerant), w, parent, true, path, child).1 == Ok(Parent(user, pc))
  {
    var cfg := Config(Mastodon, env, Tolerant);
    var we := w.Emit(Enter(parent, path));
    assert Admit(cfg, parent) == Ok(());
    assert Resolve(cfg, w, parent, true, path, child) == TryGetters(cfg, we, parent, true, path, child - 1, 0, TypeError);
    Resolution.NoUserNeverCached(Mastodon, we.disk, parent);
    Resolution.GetterFails(cfg, we, parent, true, path, child - 1, 0, TypeError, KeyError("account"));
    ParentApiStep(cfg, we.Emit(Attempt(Cache, parent)), parent, path, child - 1, user, pc, KeyError("account"));
  }

  /** Corrected: with the parent served by the API, the reply's lookup
      succeeds and returns the reply. */
  lemma ReplyResolvesCorrected(env: Env, w: World, r: Ref, inst: string, pid: string, c: string, fuel: nat, user: string, pc: string)
    requires fuel >= 3 && Scene(env, w, r, inst, pid, c)
    requires user != "" && env.anchors(pc) == [] && env.net(TootApi, TootRef(inst, pid, None)) == Ok(Parent(user, pc))
    ensures Resolve(Config(Mastodon, env, Tolerant), w, r, false, [], fuel).1 == Ok(Reply(pid, c))
  {
    var cfg := Config(Mastodon, env, Tolerant);
    var json := Reply(pid, c);
    var p := PostPath(Mastodon, json, r, "").value;
    ReplyLookup(cfg, w, r, inst, pid, c, fuel);
    var w1 := w.Emit(Enter(r, [])).Emit(Attempt(Cache, r)).Emit(Attempt(TootApi, r));
    ReplyFollowUp(cfg, w1, r, inst, pid, c, fuel - 1, p);
    var w2 := w1.Put(p, Doc(json), Save(p));
    ParentResolves(env, w2, TootRef(inst, pid, None), [r], fuel - 1, user, pc);
  }
}
