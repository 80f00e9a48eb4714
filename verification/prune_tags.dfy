/** The prune_tags plugin (prune_tags.py): once every generator is done, a
    tag carried by fewer than `MIN_TAGS` articles (but by some) is taken off
    those articles and out of the generator's tag index. */
module PruneTags {
  import opened Wrappers
  import opened Json

  const MinTags := 2

  /** An article and its list of tags (a tag may occur more than once). */
  datatype Article = Article(slug: string, tags: seq<string>)

  /** One item of a generator's `tags` dict: the tag and the articles it
      lists, as indices into the site's articles. */
  datatype Entry = Entry(tag: string, articles: seq<nat>)

  /** A generator; `tags` is None for one without a `tags` attribute. */
  datatype Generator = Generator(tags: Option<seq<Entry>>)

  predicate Prunable(e: Entry) {
    0 < |e.articles| < MinTags
  }

  predicate EntriesBounded(es: seq<Entry>, n: nat) {
    forall i, k :: 0 <= i < |es| && 0 <= k < |es[i].articles| ==> es[i].articles[k] < n
  }

  /** Every index a generator lists names an existing article. */
  predicate WellFormed(arts: seq<Article>, gens: seq<Generator>) {
    forall g :: 0 <= g < |gens| && gens[g].tags.Some? ==> EntriesBounded(gens[g].tags.value, |arts|)
  }

  /** Where `list.remove(x)` finds `x`: its first occurrence. */
  function FirstIndex(xs: seq<string>, x: string): (i: nat)
    requires x in xs
    ensures i < |xs| && xs[i] == x && x !in xs[..i]
    decreases |xs|
  {
    if xs[0] == x then 0
    else
      var i := FirstIndex(xs[1..], x);
      assert xs[..i + 1] == [xs[0]] + xs[1..][..i];
      i + 1
  }

  /** `list.remove(x)`: the first occurrence of `x` is dropped. */
  function RemoveFirst(xs: seq<string>, x: string): (r: seq<string>)
    requires x in xs
    ensures |r| == |xs| - 1
    ensures multiset(r) == multiset(xs) - multiset{x}
  {
    var i := FirstIndex(xs, x);
    assert xs == xs[..i] + [x] + xs[i + 1..];
    xs[..i] + xs[i + 1..]
  }

  /** The (tag, article) removals the loops perform, in order. */
  function EntryRemovals(e: Entry): (rs: seq<(string, nat)>)
    ensures |rs| == (if Prunable(e) then |e.articles| else 0)
    ensures forall k :: 0 <= k < |rs| ==> rs[k] == (e.tag, e.articles[k])
  {
    if Prunable(e) then seq(|e.articles|, k requires 0 <= k < |e.articles| => (e.tag, e.articles[k])) else []
  }

  function EntriesRemovals(es: seq<Entry>): (rs: seq<(string, nat)>)
    ensures (forall i :: 0 <= i < |es| ==> !Prunable(es[i])) ==> rs == []
    decreases |es|
  {
    if |es| == 0 then [] else EntryRemovals(es[0]) + EntriesRemovals(es[1..])
  }

  function Removals(gens: seq<Generator>): (rs: seq<(string, nat)>)
    ensures (forall g, i :: 0 <= g < |gens| && gens[g].tags.Some? && 0 <= i < |gens[g].tags.value| ==> !Prunable(gens[g].tags.value[i]))
            ==> rs == []
    decreases |gens|
  {
    if |gens| == 0 then []
    else
      var here := if gens[0].tags.Some? then EntriesRemovals(gens[0].tags.value) else [];
      here + Removals(gens[1..])
  }

  lemma {:induction false} EntriesRemovalsBounded(es: seq<Entry>, n: nat)
    requires EntriesBounded(es, n)
    ensures forall k :: 0 <= k < |EntriesRemovals(es)| ==> EntriesRemovals(es)[k].1 < n
    decreases |es|
  {
    if |es| > 0 {
      assert EntriesBounded(es[1..], n) by {
        forall i, k | 0 <= i < |es[1..]| && 0 <= k < |es[1..][i].articles|
          ensures es[1..][i].articles[k] < n
        {
          assert es[1..][i] == es[i + 1];
        }
      }
      EntriesRemovalsBounded(es[1..], n);
      var here := EntryRemovals(es[0]);
      assert forall k :: 0 <= k < |here| ==> here[k].1 == es[0].articles[k];
    }
  }

  lemma {:induction false} RemovalsBounded(arts: seq<Article>, gens: seq<Generator>)
    requires WellFormed(arts, gens)
    ensures forall k :: 0 <= k < |Removals(gens)| ==> Removals(gens)[k].1 < |arts|
    decreases |gens|
  {
    if |gens| > 0 {
      assert WellFormed(arts, gens[1..]) by {
        forall g | 0 <= g < |gens[1..]| && gens[1..][g].tags.Some?
          ensures EntriesBounded(gens[1..][g].tags.value, |arts|)
        {
          assert gens[1..][g] == gens[g + 1];
        }
      }
      RemovalsBounded(arts, gens[1..]);
      if gens[0].tags.Some? {
        EntriesRemovalsBounded(gens[0].tags.value, |arts|);
      }
    }
  }

  /** The tags removed from article `j`, counted with multiplicity. */
  function RemovedFrom(rs: seq<(string, nat)>, j: nat): multiset<string>
    decreases |rs|
  {
    if |rs| == 0 then multiset{}
    else (if rs[0].1 == j then multiset{rs[0].0} else multiset{}) + RemovedFrom(rs[1..], j)
  }

  predicate Bounded(rs: seq<(string, nat)>, n: nat) {
    forall k :: 0 <= k < |rs| ==> rs[k].1 < n
  }

  /** Performing the removals one by one; a tag an article no longer
      carries raises `ValueError`. */
  function Apply(arts: seq<Article>, rs: seq<(string, nat)>): (r: Outcome<seq<Article>>)
    requires Bounded(rs, |arts|)
    ensures r.Ok? ==> |r.value| == |arts|
    ensures r.Err? ==> r.error == ValueError
    decreases |rs|
  {
    if |rs| == 0 then Ok(arts)
    else
      var (t, j) := rs[0];
      if t !in arts[j].tags then Err(ValueError)
      else Apply(arts[j := arts[j].(tags := RemoveFirst(arts[j].tags, t))], rs[1..])
  }

  /** Removing one `t` first and then `r` fits in `m` exactly when `t` and
      `r` together fit in it. */
  lemma TakeOneFirst(m: multiset<string>, t: string, r: multiset<string>)
    requires t in m
    ensures r <= m - multiset{t} <==> multiset{t} + r <= m
    ensures (m - multiset{t}) + multiset{t} == m
  {
  }

  /** All the removals can be made exactly when each article carries every
      tag taken from it, as often as it is taken. */
  lemma {:induction false} ApplyOk(arts: seq<Article>, rs: seq<(string, nat)>)
    requires Bounded(rs, |arts|)
    ensures Apply(arts, rs).Ok? <==> forall j :: 0 <= j < |arts| ==> RemovedFrom(rs, j) <= multiset(arts[j].tags)
    decreases |rs|
  {
    if |rs| > 0 {
      var (t, j0) := rs[0];
      if t !in arts[j0].tags {
        assert RemovedFrom(rs, j0)[t] > 0;
      } else {
        var arts1 := arts[j0 := arts[j0].(tags := RemoveFirst(arts[j0].tags, t))];
        ApplyOk(arts1, rs[1..]);
        forall j | 0 <= j < |arts|
          ensures RemovedFrom(rs[1..], j) <= multiset(arts1[j].tags) <==> RemovedFrom(rs, j) <= multiset(arts[j].tags)
        {
          if j == j0 {
            TakeOneFirst(multiset(arts[j].tags), t, RemovedFrom(rs[1..], j));
          }
        }
      }
    }
  }

  /** After the removals each article has lost exactly the tags taken from
      it, and kept its slug. */
  lemma {:induction false} ApplyEffect(arts: seq<Article>, rs: seq<(string, nat)>)
    requires Bounded(rs, |arts|) && Apply(arts, rs).Ok?
    ensures forall j :: 0 <= j < |arts| ==>
              && Apply(arts, rs).value[j].slug == arts[j].slug
              && multiset(Apply(arts, rs).value[j].tags) + RemovedFrom(rs, j) == multiset(arts[j].tags)
    decreases |rs|
  {
    if |rs| > 0 {
      var (t, j0) := rs[0];
      var arts1 := arts[j0 := arts[j0].(tags := RemoveFirst(arts[j0].tags, t))];
      ApplyEffect(arts1, rs[1..]);
      var out := Apply(arts, rs).value;
      forall j | 0 <= j < |arts|
        ensures out[j].slug == arts[j].slug
        ensures multiset(out[j].tags) + RemovedFrom(rs, j) == multiset(arts[j].tags)
      {
        if j == j0 {
          TakeOneFirst(multiset(arts[j].tags), t, RemovedFrom(rs[1..], j));
        }
      }
    }
  }

  /** The tag index a generator keeps. */
  function Keep(es: seq<Entry>): (r: seq<Entry>)
    ensures forall e :: e in r <==> e in es && !Prunable(e)
    decreases |es|
  {
    if |es| == 0 then []
    else if Prunable(es[0]) then Keep(es[1..])
    else [es[0]] + Keep(es[1..])
  }

  function KeepAll(gens: seq<Generator>): (r: seq<Generator>)
    ensures |r| == |gens|
    ensures forall g :: 0 <= g < |gens| ==> r[g].tags.Some? == gens[g].tags.Some?
    ensures forall g :: 0 <= g < |gens| && gens[g].tags.Some? ==> r[g].tags.value == Keep(gens[g].tags.value)
  {
    seq(|gens|, g requires 0 <= g < |gens| => if gens[g].tags.Some? then Generator(Some(Keep(gens[g].tags.value))) else gens[g])
  }

  /** `run(generators)`: the articles and the generators afterwards. The
      loops interleave the article edits and the index pops, but neither
      touches what the other reads (the loop walks a copy of the index), so
      they are performed here one after the other. */
  function Run(arts: seq<Article>, gens: seq<Generator>): (r: Outcome<(seq<Article>, seq<Generator>)>)
    requires WellFormed(arts, gens)
    ensures r.Ok? <==> forall j :: 0 <= j < |arts| ==> RemovedFrom(Removals(gens), j) <= multiset(arts[j].tags)
    ensures r.Err? ==> r.error == ValueError
    ensures r.Ok? ==>
              && r.value.1 == KeepAll(gens)
              && |r.value.0| == |arts|
              && forall j :: 0 <= j < |arts| ==>
                   && r.value.0[j].slug == arts[j].slug
                   && multiset(r.value.0[j].tags) + RemovedFrom(Removals(gens), j) == multiset(arts[j].tags)
  {
    var rs := Removals(gens);
    RemovalsBounded(arts, gens);
    ApplyOk(arts, rs);
    match Apply(arts, rs)
    case Err(e) => Err(e)
    case Ok(arts2) =>
      ApplyEffect(arts, rs);
      Ok((arts2, KeepAll(gens)))
  }

  lemma {:induction false} KeepClean(es: seq<Entry>)
    requires forall i :: 0 <= i < |es| ==> !Prunable(es[i])
    ensures Keep(es) == es
    decreases |es|
  {
    if |es| > 0 {
      assert forall i :: 0 <= i < |es[1..]| ==> es[1..][i] == es[i + 1];
      KeepClean(es[1..]);
    }
  }

  /** After a run no generator lists a prunable tag, so a second run
      changes nothing. */
  lemma RunIdempotent(arts: seq<Article>, gens: seq<Generator>)
    requires WellFormed(arts, gens) && Run(arts, gens).Ok?
    ensures var (arts2, gens2) := Run(arts, gens).value;
            WellFormed(arts2, gens2) && Run(arts2, gens2) == Ok((arts2, gens2))
  {
    var (arts2, gens2) := Run(arts, gens).value;
    forall g | 0 <= g < |gens2| && gens2[g].tags.Some?
      ensures EntriesBounded(gens2[g].tags.value, |arts2|)
      ensures forall i :: 0 <= i < |gens2[g].tags.value| ==> !Prunable(gens2[g].tags.value[i])
      ensures Keep(gens2[g].tags.value) == gens2[g].tags.value
    {
      var es := gens[g].tags.value;
      var kept := gens2[g].tags.value;
      forall i | 0 <= i < |kept|
        ensures !Prunable(kept[i])
        ensures exists i' :: 0 <= i' < |es| && es[i'] == kept[i]
      {
        assert kept[i] in kept;
      }
      KeepClean(kept);
    }
    assert Removals(gens2) == [];
    assert Apply(arts2, []) == Ok(arts2);
    assert KeepAll(gens2) == gens2;
  }

  /** A tag listed for one article that carries it once is gone from that
      article, and from the index, after a run. */
  lemma SingleUseTagDropped(arts: seq<Article>, t: string, j: nat)
    requires j < |arts| && multiset(arts[j].tags)[t] == 1
    ensures var gens := [Generator(Some([Entry(t, [j])]))];
            && WellFormed(arts, gens)
            && Run(arts, gens).Ok?
            && t !in Run(arts, gens).value.0[j].tags
            && Run(arts, gens).value.1 == [Generator(Some([]))]
  {
    var gens := [Generator(Some([Entry(t, [j])]))];
    var e := Entry(t, [j]);
    assert Prunable(e);
    assert EntryRemovals(e) == [(t, j)];
    assert EntriesRemovals([e]) == [(t, j)] by {
      assert [e][1..] == [];
    }
    assert Removals(gens) == [(t, j)] by {
      assert gens[1..] == [];
    }
    assert RemovedFrom([(t, j)], j) == multiset{t} by {
      assert [(t, j)][1..] == [];
    }
    forall i | 0 <= i < |arts| && i != j
      ensures RemovedFrom([(t, j)], i) == multiset{}
    {
      assert [(t, j)][1..] == [];
    }
    assert Keep([e]) == [] by {
      assert [e][1..] == [];
    }
    var after := Run(arts, gens).value.0[j].tags;
    assert multiset(after) + multiset{t} == multiset(arts[j].tags);
    assert multiset(after)[t] == 0;
  }
}
