/** The anchorlinks plugin (anchorlinks.py): every in-page link of an
    article or page gets the class `anchorlink`, unless it already carries
    one of the ignored classes. */
module AnchorLinks {
  import opened Wrappers
  import Text
  import opened Html

  const Marker := "anchorlink"
  const DefaultIgnore: seq<string> := ["footnote-ref", "toclink"]

  /** A link to a fragment of the same page: an `href` starting with '#'. */
  predicate Internal(a: Anchor) {
    a.href.Some? && Text.StartsWith(a.href.value, "#")
  }

  /** One of the anchor's classes is on the ignore list. */
  predicate Exempt(a: Anchor, ignore: seq<string>) {
    exists i :: 0 <= i < |ignore| && ignore[i] in a.classes
  }

  /** The anchor as the plugin leaves it. */
  function Tag(a: Anchor, ignore: seq<string>): (b: Anchor)
    ensures b.href == a.href && b.text == a.text
    ensures Internal(a) && !Exempt(a, ignore) ==> b.classes == a.classes + [Marker]
    ensures !(Internal(a) && !Exempt(a, ignore)) ==> b == a
  {
    if Internal(a) && !Exempt(a, ignore) then a.(classes := a.classes + [Marker]) else a
  }

  /** The loop over `findAll("a", href=True)`: the anchors after it, and
      whether any of them changed. */
  function TagAll(anchors: seq<Anchor>, ignore: seq<string>): (r: (seq<Anchor>, bool))
    ensures |r.0| == |anchors|
    ensures forall k :: 0 <= k < |anchors| ==> r.0[k] == Tag(anchors[k], ignore)
    ensures r.1 <==> exists k :: 0 <= k < |anchors| && Internal(anchors[k]) && !Exempt(anchors[k], ignore)
    decreases |anchors|
  {
    if |anchors| == 0 then ([], false)
    else
      var rest := TagAll(anchors[1..], ignore);
      var a := anchors[0];
      var changed := Internal(a) && !Exempt(a, ignore);
      assert forall k :: 1 <= k < |anchors| ==> anchors[k] == anchors[1..][k - 1];
      ([Tag(a, ignore)] + rest.0, changed || rest.1)
  }

  /** `process_content`: a body of None is left alone; the ignore list is the
      `ANCHORLINKS_IGNORE` setting or the default; the body is replaced only
      when some anchor changed. */
  function Process(content: Option<Body>, setting: Option<seq<string>>): (r: Option<Body>)
    ensures content.None? ==> r.None?
    ensures content.Some? ==> r.Some? && r.value.text == content.value.text && r.value.ids == content.value.ids
    ensures content.Some? ==>
              var ignore := if setting.Some? then setting.value else DefaultIgnore;
              && |r.value.anchors| == |content.value.anchors|
              && (forall k :: 0 <= k < |content.value.anchors| ==> r.value.anchors[k] == Tag(content.value.anchors[k], ignore))
  {
    match content
    case None => None
    case Some(body) =>
      var ignore := if setting.Some? then setting.value else DefaultIgnore;
      var (anchors, dirty) := TagAll(body.anchors, ignore);
      if dirty then Some(body.(anchors := anchors)) else Some(body)
  }

  /** When nothing qualifies, the body comes back as it was. */
  lemma CleanBodyUntouched(body: Body, setting: Option<seq<string>>)
    requires var ignore := if setting.Some? then setting.value else DefaultIgnore;
             forall k :: 0 <= k < |body.anchors| ==> !Internal(body.anchors[k]) || Exempt(body.anchors[k], ignore)
    ensures Process(Some(body), setting) == Some(body)
  {
  }

  /** Running the plugin twice with an ignore list that names the marker is
      the same as running it once: every marked link is then exempt. */
  lemma SelfIgnoringIdempotent(content: Option<Body>, ignore: seq<string>)
    requires Marker in ignore
    ensures Process(Process(content, Some(ignore)), Some(ignore)) == Process(content, Some(ignore))
  {
    if content.Some? {
      var once := Process(content, Some(ignore)).value;
      forall k | 0 <= k < |once.anchors|
        ensures Tag(once.anchors[k], ignore) == once.anchors[k]
      {
        var a := content.value.anchors[k];
        if Internal(a) && !Exempt(a, ignore) {
          var i :| 0 <= i < |ignore| && ignore[i] == Marker;
          assert once.anchors[k].classes[|a.classes|] == Marker;
          assert Exempt(once.anchors[k], ignore);
        }
      }
      assert once.anchors == TagAll(once.anchors, ignore).0;
    }
  }

  /** With the default ignore list a second run marks an in-page link a
      second time: the plugin is not idempotent. */
  lemma DefaultMarksTwice()
    ensures var a := Anchor(Some("#top"), [], "top");
            var once := Process(Some(Body([], [a], [])), None).value;
            && once.anchors == [a.(classes := [Marker])]
            && Process(Some(once), None).value.anchors == [a.(classes := [Marker, Marker])]
  {
    var a := Anchor(Some("#top"), [], "top");
    assert Text.StartsWith("#top", "#");
    assert !Exempt(a, DefaultIgnore);
    var b := a.(classes := [Marker]);
    assert !Exempt(b, DefaultIgnore) by {
      assert Marker != DefaultIgnore[0] && Marker != DefaultIgnore[1];
    }
    assert Internal(a) && Internal(b);
    assert Tag(a, DefaultIgnore) == b;
    assert b.classes + [Marker] == [Marker, Marker];
    assert Tag(b, DefaultIgnore) == b.(classes := [Marker, Marker]);
    var once := TagAll([a], DefaultIgnore);
    assert once.0 == [b] && once.1;
    var twice := TagAll([b], DefaultIgnore);
    assert twice.0 == [b.(classes := [Marker, Marker])] && twice.1;
  }
}
