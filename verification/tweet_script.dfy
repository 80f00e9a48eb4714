/** The earliest Twitter script (perma_twitter.py): the `TWEETEMBED_RE`
    embed pattern and `getTweetJson`, which reads `tweets/<id>.json` and
    otherwise asks the Twitter API and saves its answer there. */
module TweetScript {
  import opened Wrappers
  import opened Json
  import opened Social
  import opened Links
  import Paths
  import Twitter
  import ScriptIo

  // -------------------------------------------------------- TWEETEMBED_RE

  /** "[!Tweet](" or "[!tweet](" at `i`. */
  predicate OpenerAt(s: string, i: nat) {
    LitAt(s, i, "[!") && i + 2 < |s| && (s[i + 2] == 'T' || s[i + 2] == 't') && LitAt(s, i + 3, "weet](")
  }

  /** The rest of `\[\![Tt]weet\]\(.+status\/(\d+).*?\)` once the opener
      is matched: the greedy `.+` from `j` gives back one character at a
      time, so "status/" is tried at `p`, then `p - 1`, down to `j + 1`; a
      candidate succeeds when digits follow it and a ')' follows them
      somewhere. Markdown compiles the pattern with DOTALL, so '.' also
      matches a line break. */
  function Seek(s: string, i: nat, j: nat, p: nat): (h: Option<ScriptIo.Hit>)
    ensures h.Some? ==> h.value.start == i && h.value.end <= |s| && |h.value.groups| == 1
    ensures h.Some? ==> forall k :: 0 <= k < |h.value.groups[0]| ==> Twitter.IsDigit(h.value.groups[0][k])
    decreases p
  {
    if p <= j then None
    else if LitAt(s, p, "status/") && Twitter.DigitsEnd(s, p + 7) > p + 7 then
      var d := Twitter.DigitsEnd(s, p + 7);
      var c := RunEnd(s, d, {')'});
      if c < |s| then Some(ScriptIo.Hit(i, c + 1, [s[p + 7..d]])) else Seek(s, i, j, p - 1)
    else Seek(s, i, j, p - 1)
  }

  /** `TWEETEMBED_RE` matched at `i`; its one group is the tweet id. */
  function EmbedAt(s: string, i: nat): (h: Option<ScriptIo.Hit>)
    ensures h.Some? ==> h.value.start == i < h.value.end <= |s|
    ensures h.Some? ==> OpenerAt(s, i) && |h.value.groups| == 1 && |h.value.groups[0]| > 0
  {
    if !OpenerAt(s, i) then None
    else
      var h := Seek(s, i, i + 9, |s|);
      if h.Some? && h.value.end > i && |h.value.groups[0]| > 0 then h else None
  }

  /** The tweet id a Markdown embed of a status link yields. */
  function Embed(user: string, id: string): string {
    "[!Tweet](https://twitter.com/" + user + "/status/" + id + ")"
  }

  /** No "status/" starts at any position of `(from, p]`: the search passes
      over them. */
  lemma {:induction false} SeekPasses(s: string, i: nat, j: nat, from: nat, p: nat)
    requires j <= from <= p
    requires forall q :: from < q <= p ==> !LitAt(s, q, "status/")
    ensures Seek(s, i, j, p) == Seek(s, i, j, from)
    decreases p - from
  {
    if from < p {
      SeekPasses(s, i, j, from, p - 1);
    }
  }

  /** Where the pieces of an embed sit. */
  lemma EmbedPieces(user: string, id: string)
    ensures var s := Embed(user, id);
            var p := |"[!Tweet](https://twitter.com/" + user + "/"|;
            && OpenerAt(s, 0) && LitAt(s, p, "status/") && |s| == p + 7 + |id| + 1
            && s[p + 7..p + 7 + |id|] == id && s[|s| - 1] == ')'
  {
    var s := Embed(user, id);
    var pre := "[!Tweet](https://twitter.com/" + user + "/";
    var p := |pre|;
    assert s == pre + "status/" + id + ")";
    var rest := "https://twitter.com/" + user + "/status/" + id + ")";
    assert s == "[!Tweet](" + rest;
    assert s[..9] == "[!Tweet](";
    assert s[0..2] == s[..9][0..2];
    assert s[3..9] == s[..9][3..9];
    assert s[p..p + 7] == "status/";
  }

  /** After the last "status/" come only digits and the closing ')', so no
      later "status/" starts there. */
  lemma NoLaterStatus(s: string, p: nat, d: nat)
    requires LitAt(s, p, "status/") && p + 7 <= d && d + 1 == |s| && s[d] == ')'
    requires forall k :: p + 7 <= k < d ==> Twitter.IsDigit(s[k])
    ensures forall q :: p < q <= |s| ==> !LitAt(s, q, "status/")
  {
    forall q | p < q <= |s|
      ensures !LitAt(s, q, "status/")
    {
      if q + 7 <= |s| {
        assert s[q..q + 7][0] == s[q] && s[q..q + 7][1] == s[q + 1];
        if q < p + 7 {
          assert s[q] == s[p..p + 7][q - p];
          assert q + 1 < p + 7 ==> s[q + 1] == s[p..p + 7][q + 1 - p];
        }
      }
    }
  }

  /** Round trip: the embed of a status link whose user name has no
      "status/" in it yields the status id. */
  lemma EmbedRoundTrip(user: string, id: string)
    requires |id| > 0 && forall k :: 0 <= k < |id| ==> Twitter.IsDigit(id[k])
    ensures var h := EmbedAt(Embed(user, id), 0);
            h.Some? && h.value.groups == [id] && h.value.end == |Embed(user, id)|
  {
    var s := Embed(user, id);
    var p := |"[!Tweet](https://twitter.com/" + user + "/"|;
    EmbedPieces(user, id);
    var d := p + 7 + |id|;
    forall k | p + 7 <= k < d
      ensures Twitter.IsDigit(s[k])
    {
      assert s[k] == s[p + 7..d][k - p - 7] == id[k - p - 7];
    }
    Twitter.DigitsEndUnique(s, p + 7, d);
    assert RunEnd(s, d, {')'}) == d;
    NoLaterStatus(s, p, d);
    SeekPasses(s, 0, 9, p, |s|);
  }

  // ----------------------------------------------------------- getTweetJson

  /** `os.path.join("tweets", tweet_id + ".json")`. */
  function TweetPath(id: string): string {
    Paths.Join(["tweets", id + ".json"])
  }

  lemma TweetPathShape(id: string)
    requires '/' !in id
    ensures TweetPath(id) == "tweets/" + id + ".json"
  {
    assert id + ".json" == id + ".json";
    assert '/' !in id + ".json" by {
      assert forall k :: 0 <= k < |id + ".json"| ==> (id + ".json")[k] != '/' by {
        forall k | 0 <= k < |id + ".json"|
          ensures (id + ".json")[k] != '/'
        {
          if k < |id| {
            assert (id + ".json")[k] == id[k];
          }
        }
      }
    }
    Paths.JoinTwo("tweets", id + ".json");
  }

  /** `getTweetJson(tweet_id)`, with `status` for `api.get_status`: the
      cached file when it exists; when it does not, the API's answer, saved
      first. A cached file that does not decode, and an API failure, are
      raised. */
  function GetTweet(status: string -> Outcome<Json>, w: World, id: string): (res: (World, Outcome<Json>))
    ensures ScriptIo.Load(w.disk, TweetPath(id)).Ok? ==> res == (w, ScriptIo.Load(w.disk, TweetPath(id)))
    ensures res.1.Ok? ==> TweetPath(id) in res.0.disk && res.0.disk[TweetPath(id)] == Doc(res.1.value)
    ensures res.1.Err? ==> res.0 == w
    ensures res.1.Ok? ==> res.0 == w || res.0 == w.Put(TweetPath(id), Doc(res.1.value), Save(TweetPath(id)))
  {
    var p := TweetPath(id);
    match ScriptIo.Load(w.disk, p)
    case Ok(j) => (w, Ok(j))
    case Err(e) =>
      if !e.FileNotFound? then (w, Err(e))
      else match status(id)
        case Err(e2) => (w, Err(e2))
        case Ok(j) => (w.Put(p, Doc(j), Save(p)), Ok(j))
  }

  /** A cached tweet is returned without consulting the API at all: any two
      APIs give the same answer. */
  lemma CachedIgnoresApi(s1: string -> Outcome<Json>, s2: string -> Outcome<Json>, w: World, id: string)
    requires TweetPath(id) in w.disk && w.disk[TweetPath(id)].Doc?
    ensures GetTweet(s1, w, id) == GetTweet(s2, w, id)
  {
  }

  /** Once a lookup succeeded, the next one is a cache hit with the same
      tweet and changes nothing. */
  lemma SecondLookupHits(status: string -> Outcome<Json>, w: World, id: string)
    requires GetTweet(status, w, id).1.Ok?
    ensures var first := GetTweet(status, w, id);
            GetTweet(status, first.0, id) == first
  {
  }
}
