/** What the three earlier stand-alone scripts (perma_bluesky.py,
    perma_fediverse.py, perma_twitter.py) share: reading a cached JSON
    file, `re.finditer` over a pattern, and a `replaceBlanksInFile` whose
    loop logs and skips every match that fails. */
module ScriptIo {
  import opened Wrappers
  import opened Json
  import opened Social
  import Text
  import Engine

  /** `json.load(open(p))`: a missing file raises `FileNotFoundError`, and
      anything but a JSON document fails to decode. */
  function Load(disk: map<string, File>, p: string): (r: Outcome<Json>)
    ensures r.Ok? <==> p in disk && disk[p].Doc?
    ensures r.Ok? ==> r.value == disk[p].json
    ensures p !in disk ==> r == Err(FileNotFound(p))
    ensures p in disk && !disk[p].Doc? ==> r == Err(DecodeError(p))
  {
    if p !in disk then Err(FileNotFound(p))
    else match disk[p]
      case Doc(j) => Ok(j)
      case _ => Err(DecodeError(p))
  }

  /** A match of a script's pattern: its span and its groups in order. */
  datatype Hit = Hit(start: nat, end: nat, groups: seq<string>)

  /** `at(s, i)` is `re.match(pattern, s[i:])` with look-behind into `s`:
      a match found at `i` starts there, is not empty and lies in `s`. */
  ghost predicate Spans(at: (string, nat) -> Option<Hit>) {
    forall s: string, i: nat :: at(s, i).Some? ==> at(s, i).value.start == i < at(s, i).value.end <= |s|
  }

  /** `re.finditer(pattern, s)` from position `i`: a match resumes the
      search where it ends, a miss moves one character on. */
  function FindAll(at: (string, nat) -> Option<Hit>, s: string, i: nat): (hs: seq<Hit>)
    requires Spans(at) && i <= |s|
    ensures forall k :: 0 <= k < |hs| ==> i <= hs[k].start < hs[k].end <= |s| && at(s, hs[k].start) == Some(hs[k])
    ensures forall k :: 0 <= k < |hs| - 1 ==> hs[k].end <= hs[k + 1].start
    decreases |s| - i
  {
    if i == |s| then []
    else match at(s, i)
      case Some(h) => [h] + FindAll(at, s, h.end)
      case None => FindAll(at, s, i + 1)
  }

  /** The text being rewritten and whether any replacement happened. */
  datatype Draft = Draft(body: string, dirty: bool)

  /** The loop of the scripts' `replaceBlanksInFile` from hit `k` on: `embed`
      looks the hit's post up and renders it; any failure is logged and the
      hit skipped, and a rendered hit replaces every occurrence of `prefix`,
      "](" and its matched text. */
  function Swallow(w: World, s: string, hs: seq<Hit>, k: nat, d: Draft, prefix: string,
                   embed: (World, Hit) -> (World, Outcome<string>)): (res: (World, Draft))
    requires k <= |hs| && forall j :: 0 <= j < |hs| ==> hs[j].start <= hs[j].end <= |s|
    ensures !res.1.dirty ==> res.1 == d
    ensures d.dirty ==> res.1.dirty
    decreases |hs| - k
  {
    if k == |hs| then (w, d)
    else
      var step := embed(w, hs[k]);
      match step.1
      case Err(_) => Swallow(step.0, s, hs, k + 1, d, prefix, embed)
      case Ok(html) =>
        var whole := prefix + "](" + s[hs[k].start..hs[k].end];
        Swallow(step.0, s, hs, k + 1, Draft(Text.Replace(d.body, whole, prefix + html), true), prefix, embed)
  }

  /** A script's `replaceBlanksInFile(file)`: only an unreadable file makes
      it fail, and the file is written back, as the last step, exactly when
      some hit was rendered. */
  function ReplaceBlanks(w: World, file: string, at: (string, nat) -> Option<Hit>, prefix: string,
                         embed: (World, Hit) -> (World, Outcome<string>)): (res: (World, Outcome<bool>))
    requires Spans(at)
    ensures res.1.Err? <==> file !in w.disk || !w.disk[file].Text?
    ensures res.1 == Ok(true) ==>
              |res.0.trace| > 0 && res.0.trace[|res.0.trace| - 1] == Rewrite(file)
              && file in res.0.disk && res.0.disk[file].Text?
  {
    if file !in w.disk then (w, Err(FileNotFound(file)))
    else if !w.disk[file].Text? then (w, Err(DecodeError(file)))
    else
      var s := w.disk[file].body;
      var run := Swallow(w, s, FindAll(at, s, 0), 0, Draft(s, false), prefix, embed);
      if run.1.dirty then (run.0.Put(file, Text(run.1.body), Rewrite(file)), Ok(true))
      else (run.0, Ok(false))
  }

  /** An embedding that fails in every world. */
  ghost predicate Hopeless(embed: (World, Hit) -> (World, Outcome<string>), h: Hit) {
    forall v: World :: embed(v, h).1.Err?
  }

  /** When every hit fails, the text stays as it was and the file is not
      written back. */
  lemma {:induction false} AllFailNoWrite(w: World, s: string, hs: seq<Hit>, k: nat, d: Draft, prefix: string,
                                          embed: (World, Hit) -> (World, Outcome<string>))
    requires k <= |hs| && forall j :: 0 <= j < |hs| ==> hs[j].start <= hs[j].end <= |s|
    requires forall j :: k <= j < |hs| ==> Hopeless(embed, hs[j])
    ensures Swallow(w, s, hs, k, d, prefix, embed).1 == d
    decreases |hs| - k
  {
    if k < |hs| {
      assert embed(w, hs[k]).1.Err?;
      AllFailNoWrite(embed(w, hs[k]).0, s, hs, k + 1, d, prefix, embed);
    }
  }

  /** One rendered hit is enough for the file to be written back. */
  lemma {:induction false} RenderedDirties(w: World, s: string, hs: seq<Hit>, k: nat, d: Draft, prefix: string,
                                           embed: (World, Hit) -> (World, Outcome<string>))
    requires k < |hs| && forall j :: 0 <= j < |hs| ==> hs[j].start <= hs[j].end <= |s|
    requires embed(w, hs[k]).1.Ok?
    ensures Swallow(w, s, hs, k, d, prefix, embed).1.dirty
  {
  }

  /** The media loop changed nothing already on disk, added only downloaded
      files, and logged only downloads. */
  ghost predicate MediaOnly(w: World, w2: World) {
    && (forall p :: p in w.disk ==> p in w2.disk && w2.disk[p] == w.disk[p])
    && (forall p :: p in w2.disk && p !in w.disk ==> w2.disk[p].Blob?)
    && Engine.Prefix(w.trace, w2.trace)
    && (forall k :: |w.trace| <= k < |w2.trace| ==> w2.trace[k].Fetch?)
  }

  lemma MediaOnlyTrans(w1: World, w2: World, w3: World)
    requires MediaOnly(w1, w2) && MediaOnly(w2, w3)
    ensures MediaOnly(w1, w3)
  {
    Engine.PrefixTrans(w1.trace, w2.trace, w3.trace);
    forall k | |w1.trace| <= k < |w3.trace|
      ensures w3.trace[k].Fetch?
    {
      if k < |w2.trace| {
        assert w3.trace[k] == w3.trace[..|w2.trace|][k] == w2.trace[k];
      }
    }
  }

  /** A download to a path not yet on disk is a media-only step. */
  lemma DownloadAdds(env: Env, w: World, src: string, dest: string)
    requires dest !in w.disk && Engine.Download(env, w, src, dest).1.Ok?
    ensures MediaOnly(w, Engine.Download(env, w, src, dest).0)
  {
    var w2 := Engine.Download(env, w, src, dest).0;
    assert w2.trace[..|w.trace|] == w.trace;
  }
}
