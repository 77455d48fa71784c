/**
 * The two per-element passes the clock drives: `updateTimeTo` shows or hides
 * every element that has a render object, and `updateVideoElements` seeks and
 * plays or pauses the document's video for every video element.
 */
module Visibility {
  import opened Wrappers
  import opened Dom
  import opened Scene

  /** Membership in the closed interval `[start, end]`. */
  predicate InTimeFrame(tf: TimeFrame, t: real) {
    tf.start <= t && t <= tf.end
  }

  /** One step of `updateTimeTo`'s `forEach`. */
  function ShowAt(e: Element, t: real): (r: Element) {
    if e.fabricObject.Some? then e.(fabricObject := Some(e.fabricObject.value.(visible := InTimeFrame(e.timeFrame, t))))
    else e
  }

  /** The elements after `updateTimeTo(t)` has walked all of them. */
  function ApplyVisibility(es: seq<Element>, t: real): (r: seq<Element>) {
    seq(|es|, i requires 0 <= i < |es| => ShowAt(es[i], t))
  }

  /**
   * Each element with a render object becomes visible exactly when `t` lies in
   * its time frame; nothing else about any element changes.
   */
  lemma ApplyVisibilitySetsFlags(es: seq<Element>, t: real)
    ensures var r := ApplyVisibility(es, t);
      && |r| == |es|
      && (forall i :: 0 <= i < |es| ==> r[i] == es[i].(fabricObject := r[i].fabricObject))
      && (forall i :: 0 <= i < |es| ==> (r[i].fabricObject.Some? <==> es[i].fabricObject.Some?))
      && (forall i :: 0 <= i < |es| && es[i].fabricObject.Some? ==>
            r[i].fabricObject.value.visible == (es[i].timeFrame.start <= t <= es[i].timeFrame.end))
      && (forall i :: 0 <= i < |es| && es[i].fabricObject.None? ==> r[i] == es[i])
  {
  }

  /** A later pass overrides an earlier one completely. */
  lemma ApplyVisibilityOverrides(es: seq<Element>, t1: real, t2: real)
    ensures ApplyVisibility(ApplyVisibility(es, t1), t2) == ApplyVisibility(es, t2)
  {
  }

  /** A second pass with the same time changes nothing. */
  lemma ApplyVisibilityIdempotent(es: seq<Element>, t: real)
    ensures ApplyVisibility(ApplyVisibility(es, t), t) == ApplyVisibility(es, t)
  {
    ApplyVisibilityOverrides(es, t, t);
  }

  lemma ApplyVisibilityKeepsIds(es: seq<Element>, t: real)
    ensures forall i :: 0 <= i < |es| ==> ApplyVisibility(es, t)[i].id == es[i].id
    ensures UniqueIds(es) ==> UniqueIds(ApplyVisibility(es, t))
  {
  }

  /** The position, in seconds, a video element's media is seeked to at timeline time `time`. */
  function VideoPosition(e: Element, time: real): (r: real) {
    (time - e.timeFrame.start) / 1000.0
  }

  /** One step of `updateVideoElements`: seek and play/pause the element's video, if it is one. */
  function SyncVideo(e: Element, nodes: map<DomId, Node>, time: real, playing: bool): (r: map<DomId, Node>) {
    if e.kind.VideoKind? && e.kind.elementId in nodes && nodes[e.kind.elementId].VideoNode? then
      nodes[e.kind.elementId := VideoNode(VideoPosition(e, time), playing)]
    else nodes
  }

  /** The document after `updateVideoElements` has walked `es` in order. */
  function SyncVideos(es: seq<Element>, nodes: map<DomId, Node>, time: real, playing: bool): (r: map<DomId, Node>)
    decreases |es|
  {
    if es == [] then nodes
    else SyncVideo(es[|es| - 1], SyncVideos(es[..|es| - 1], nodes, time, playing), time, playing)
  }

  /** The last video element of `es` that refers to document node `d`. */
  function LastVideoFor(es: seq<Element>, d: DomId): (r: Option<Element>)
    decreases |es|
  {
    if es == [] then None
    else if es[|es| - 1].kind.VideoKind? && es[|es| - 1].kind.elementId == d then Some(es[|es| - 1])
    else LastVideoFor(es[..|es| - 1], d)
  }

  /**
   * What `updateVideoElements` leaves at each node: a video node referred to
   * by some video element holds the position and play state the last such
   * element gives it; every other node, and the set of nodes, is unchanged.
   */
  lemma {:induction false} SyncVideosAt(es: seq<Element>, nodes: map<DomId, Node>, time: real, playing: bool, d: DomId)
    ensures var r := SyncVideos(es, nodes, time, playing);
      && (d in r <==> d in nodes)
      && (d in nodes ==> r[d] == if nodes[d].VideoNode? && LastVideoFor(es, d).Some?
                                 then VideoNode(VideoPosition(LastVideoFor(es, d).value, time), playing)
                                 else nodes[d])
    decreases |es|
  {
    if es != [] {
      SyncVideosAt(es[..|es| - 1], nodes, time, playing, d);
    }
  }

  lemma SyncVideosKeepsKeys(es: seq<Element>, nodes: map<DomId, Node>, time: real, playing: bool)
    ensures SyncVideos(es, nodes, time, playing).Keys == nodes.Keys
  {
    var r := SyncVideos(es, nodes, time, playing);
    forall d ensures d in r <==> d in nodes {
      SyncVideosAt(es, nodes, time, playing, d);
    }
  }

  /** The last pass decides every video's state, whatever earlier passes wrote. */
  lemma SyncVideosOverrides(es: seq<Element>, nodes: map<DomId, Node>, t1: real, p1: bool, t2: real, p2: bool)
    ensures SyncVideos(es, SyncVideos(es, nodes, t1, p1), t2, p2) == SyncVideos(es, nodes, t2, p2)
  {
    var mid := SyncVideos(es, nodes, t1, p1);
    var a := SyncVideos(es, mid, t2, p2);
    var b := SyncVideos(es, nodes, t2, p2);
    SyncVideosKeepsKeys(es, nodes, t1, p1);
    SyncVideosKeepsKeys(es, mid, t2, p2);
    SyncVideosKeepsKeys(es, nodes, t2, p2);
    forall d | d in nodes ensures a[d] == b[d] {
      SyncVideosAt(es, nodes, t1, p1, d);
      SyncVideosAt(es, mid, t2, p2, d);
      SyncVideosAt(es, nodes, t2, p2, d);
    }
  }

  /** Repeating `updateVideoElements` with the same time and play state changes nothing. */
  lemma SyncVideosIdempotent(es: seq<Element>, nodes: map<DomId, Node>, time: real, playing: bool)
    ensures SyncVideos(es, SyncVideos(es, nodes, time, playing), time, playing) == SyncVideos(es, nodes, time, playing)
  {
    SyncVideosOverrides(es, nodes, time, playing, time, playing);
  }

  /** When no later video element shares its node, a video element's node gets its position and play state. */
  lemma SyncVideosSetsEachVideo(es: seq<Element>, nodes: map<DomId, Node>, time: real, playing: bool, k: int)
    requires 0 <= k < |es| && es[k].kind.VideoKind?
    requires es[k].kind.elementId in nodes && nodes[es[k].kind.elementId].VideoNode?
    requires forall j :: k < j < |es| && es[j].kind.VideoKind? ==> es[j].kind.elementId != es[k].kind.elementId
    ensures es[k].kind.elementId in SyncVideos(es, nodes, time, playing)
    ensures SyncVideos(es, nodes, time, playing)[es[k].kind.elementId]
            == VideoNode((time - es[k].timeFrame.start) / 1000.0, playing)
  {
    LastVideoForIsLast(es, k);
    SyncVideosAt(es, nodes, time, playing, es[k].kind.elementId);
  }

  lemma {:induction false} LastVideoForIsLast(es: seq<Element>, k: int)
    requires 0 <= k < |es| && es[k].kind.VideoKind?
    requires forall j :: k < j < |es| && es[j].kind.VideoKind? ==> es[j].kind.elementId != es[k].kind.elementId
    ensures LastVideoFor(es, es[k].kind.elementId) == Some(es[k])
    decreases |es|
  {
    if k < |es| - 1 {
      var init := es[..|es| - 1];
      assert init[k] == es[k];
      LastVideoForIsLast(init, k);
    }
  }

  /** Showing or hiding elements does not change what `updateVideoElements` does with them. */
  lemma {:induction false} SyncVideosIgnoresVisibility(es: seq<Element>, t: real, nodes: map<DomId, Node>, time: real, playing: bool)
    ensures SyncVideos(ApplyVisibility(es, t), nodes, time, playing) == SyncVideos(es, nodes, time, playing)
    decreases |es|
  {
    if es != [] {
      var init := es[..|es| - 1];
      assert ApplyVisibility(es, t)[..|es| - 1] == ApplyVisibility(init, t);
      SyncVideosIgnoresVisibility(init, t, nodes, time, playing);
    }
  }
}
