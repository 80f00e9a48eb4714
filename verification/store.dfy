/** Where the engine keeps a post: `getPostFilePath` of the base class
    (perma_social/common.py and the earlier perma_social.py), and the file
    name rule the Mastodon adapter repeats. */
module Store {
  import opened Wrappers
  import opened Json
  import opened Social
  import Text
  import Paths

  /** The file name of a post's JSON (`s<post>.json`) or of one of its media
      files (`s<post>-<media>`). The current plugin cuts a media name at its
      first '?'; the earlier one does not. An empty media id is falsy in
      Python and so names the JSON file. */
  function FileName(post: string, media: string, stripQuery: bool): (name: string)
    ensures |name| >= 1 && name[0] == 's'
    ensures media == "" ==> name == "s" + post + ".json"
    ensures media != "" && !stripQuery ==> name == "s" + post + "-" + media
    ensures media != "" && stripQuery ==> '?' !in name
    ensures media != "" && stripQuery ==> Text.StartsWith("s" + post + "-" + media, name)
  {
    if media == "" then "s" + post + ".json"
    else if stripQuery then Text.Before("s" + post + "-" + media, '?')
    else "s" + post + "-" + media
  }

  /** Stripping the query changes nothing when there is none. */
  lemma FileNameNoQuery(post: string, media: string)
    requires media != "" && '?' !in post && '?' !in media
    ensures FileName(post, media, true) == FileName(post, media, false)
  {
    var full := "s" + post + "-" + media;
    assert forall i :: 0 <= i < |full| ==> full[i] != '?';
    var b := Text.Before(full, '?');
    assert |b| == |full|;
  }

  /** The directory components of a post's files: `socialposts/<noun>s/<user>`
      in the current plugin, `<noun>s/<user>` in the earlier one. */
  function BaseDir(a: Adapter, user: string): (parts: seq<string>)
    ensures |parts| >= 2
  {
    if a.Legacy() then [a.Noun() + "s", user] else ["socialposts", a.Noun() + "s", user]
  }

  lemma NounPlain(a: Adapter)
    ensures Paths.Plain(a.Noun() + "s") && Paths.Plain("socialposts")
  {
  }

  /** The base class's `getPostFilePath(json, ref, media_id=media)`. A
      reference without a user makes `os.path.join` raise `TypeError`. */
  function BasePath(a: Adapter, r: Ref, media: string): (p: Outcome<string>)
    ensures p.Ok? <==> r.userId.Some?
    ensures r.userId.None? ==> p == Err(TypeError)
  {
    match r.userId
    case None => Err(TypeError)
    case Some(user) => Ok(Paths.Join2(Paths.Join(BaseDir(a, user)), FileName(r.postId, media, !a.Legacy())))
  }

  /** With a plain user name the cache file of the current plugin is
      `socialposts/<noun>s/<user>/s<post>.json`, and a media file is its
      sibling. */
  lemma BasePathShape(a: Adapter, user: string, post: string, media: string)
    requires !a.Legacy() && Paths.Plain(user)
    ensures BasePath(a, PostRef(Some(user), post), media)
         == Ok("socialposts/" + a.Noun() + "s/" + user + "/" + FileName(post, media, true))
  {
    NounPlain(a);
    Paths.JoinThree("socialposts", a.Noun() + "s", user);
    var name := FileName(post, media, true);
    assert BaseDir(a, user) == ["socialposts", a.Noun() + "s", user];
    Paths.JoinUnder("socialposts" + "/" + (a.Noun() + "s") + "/", user, name);
    assert "socialposts" + "/" + (a.Noun() + "s") + "/" + user + "/" + name
        == "socialposts/" + a.Noun() + "s/" + user + "/" + name;
  }

  /** The earlier plugin's layout: `<noun>s/<user>/s<post>.json`, with no
      root directory and no query stripping. */
  lemma LegacyBasePathShape(a: Adapter, user: string, post: string, media: string)
    requires a.Legacy() && Paths.Plain(user)
    ensures BasePath(a, PostRef(Some(user), post), media)
         == Ok(a.Noun() + "s/" + user + "/" + FileName(post, media, false))
  {
    NounPlain(a);
    Paths.JoinTwo(a.Noun() + "s", user);
    var name := FileName(post, media, false);
    assert BaseDir(a, user) == [a.Noun() + "s", user];
    Paths.JoinUnder(a.Noun() + "s" + "/", user, name);
    assert a.Noun() + "s" + "/" + user + "/" + name == a.Noun() + "s/" + user + "/" + name;
  }
}
