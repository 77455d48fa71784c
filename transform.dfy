/**
 * The transform-commit handlers `refreshElements` attaches to each drawing
 * surface object: when the user finishes moving, rotating or scaling an
 * object, its reported geometry is turned back into a placement and written
 * to the store with `setElements`.
 */
module Transform {
  import opened Wrappers
  import opened Scene

  /** What a drawing-surface object reports after a transform; any field may be undefined. */
  datatype ObjectState = ObjectState(
    left: Option<real>, top: Option<real>, angle: Option<real>,
    width: Option<real>, height: Option<real>,
    scaleX: Option<real>, scaleY: Option<real>)

  datatype Scale = Scale(x: real, y: real)

  /** `toScale`: the scale that fits an image of the given natural size to the placement's box. */
  function FitScale(p: Placement, naturalWidth: real, naturalHeight: real): (r: Scale)
    requires naturalWidth != 0.0 && naturalHeight != 0.0
    ensures r.x * naturalWidth == p.width && r.y * naturalHeight == p.height
  {
    Scale(p.width / naturalWidth, p.height / naturalHeight)
  }

  /** The scale an image object is created with: the fit scale times the placement's own scale. */
  function ImageObjectScale(p: Placement, fit: Scale): (r: Scale) {
    Scale(fit.x * p.scaleX, fit.y * p.scaleY)
  }

  /** JavaScript truthiness of a possibly undefined number (NaN is not modelled). */
  predicate Truthy(v: Option<real>) {
    v.Some? && v.value != 0.0
  }

  /** The image handler's new placement: the reported x-scale divided by the fit scale becomes both scales. */
  function CommitImage(p: Placement, fit: Scale, target: ObjectState): (r: Placement)
    requires fit.x != 0.0
    ensures r.width == p.width && r.height == p.height
    ensures r.scaleX == r.scaleY
    ensures !(Truthy(target.scaleX) && target.scaleX.value > 0.0) ==> r.scaleX == 1.0
  {
    var finalScale := if Truthy(target.scaleX) && target.scaleX.value > 0.0 then target.scaleX.value / fit.x else 1.0;
    p.(x := target.left.GetOr(p.x), y := target.top.GetOr(p.y), rotation := target.angle.GetOr(p.rotation),
       scaleX := finalScale, scaleY := finalScale)
  }

  /**
   * Committing an image object whose scale is the one it was created with
   * recovers the placement's x-scale. With position and angle unchanged too,
   * the whole placement comes back exactly when its two scales were equal,
   * since the x ratio is written to both.
   */
  lemma ImageCommitRoundTrip(p: Placement, naturalWidth: real, naturalHeight: real, target: ObjectState)
    requires naturalWidth != 0.0 && naturalHeight != 0.0
    requires FitScale(p, naturalWidth, naturalHeight).x > 0.0 && p.scaleX > 0.0
    requires target.scaleX == Some(ImageObjectScale(p, FitScale(p, naturalWidth, naturalHeight)).x)
    ensures var fit := FitScale(p, naturalWidth, naturalHeight);
      CommitImage(p, fit, target).scaleX == p.scaleX
    ensures var fit := FitScale(p, naturalWidth, naturalHeight);
      target.left == Some(p.x) && target.top == Some(p.y) && target.angle == Some(p.rotation) ==>
        (CommitImage(p, fit, target) == p <==> p.scaleY == p.scaleX)
  {
    var fit := FitScale(p, naturalWidth, naturalHeight);
    assert fit.x * p.scaleX / fit.x == p.scaleX;
  }

  /** The video handler's new placement: the reported scale is folded into width and height. */
  function CommitVideo(p: Placement, target: ObjectState): (r: Placement) {
    p.(x := target.left.GetOr(p.x), y := target.top.GetOr(p.y), rotation := target.angle.GetOr(p.rotation),
       width := if Truthy(target.width) && Truthy(target.scaleX) then target.width.value * target.scaleX.value else p.width,
       height := if Truthy(target.height) && Truthy(target.scaleY) then target.height.value * target.scaleY.value else p.height,
       scaleX := 1.0, scaleY := 1.0)
  }

  /**
   * A committed video keeps its displayed size (size times scale) and carries
   * no scale of its own afterwards; a second commit of the same object, as it
   * is then displayed, changes nothing.
   */
  lemma VideoCommitKeepsDisplayedSize(p: Placement, target: ObjectState)
    requires Truthy(target.width) && Truthy(target.scaleX) && Truthy(target.height) && Truthy(target.scaleY)
    ensures var r := CommitVideo(p, target);
      && r.scaleX == 1.0 && r.scaleY == 1.0
      && r.width * r.scaleX == target.width.value * target.scaleX.value
      && r.height * r.scaleY == target.height.value * target.scaleY.value
    ensures var r := CommitVideo(p, target);
      r.width != 0.0 && r.height != 0.0 ==>
        CommitVideo(r, ObjectState(Some(r.x), Some(r.y), Some(r.rotation), Some(r.width), Some(r.height), Some(1.0), Some(1.0))) == r
  {
  }

  /** The text handler's new placement: every reported field replaces the stored one. */
  function CommitText(p: Placement, target: ObjectState): (r: Placement) {
    Placement(target.left.GetOr(p.x), target.top.GetOr(p.y), target.width.GetOr(p.width), target.height.GetOr(p.height),
              target.angle.GetOr(p.rotation), target.scaleX.GetOr(p.scaleX), target.scaleY.GetOr(p.scaleY))
  }

  /** A text object that reports the placement it was built from commits that placement unchanged. */
  lemma TextCommitRoundTrip(p: Placement)
    ensures CommitText(p, ObjectState(Some(p.x), Some(p.y), Some(p.rotation), Some(p.width), Some(p.height),
                                      Some(p.scaleX), Some(p.scaleY))) == p
    ensures CommitText(p, ObjectState(None, None, None, None, None, None, None)) == p
  {
  }

  /**
   * The element a handler writes: the given element with the new placement
   * and, when it is a text element, the text its textbox reports; the font
   * fields and everything else are kept.
   */
  function Committed(e: Element, placement: Placement, text: string): (r: Element)
    ensures r.id == e.id && r.timeFrame == e.timeFrame && r.placement == placement
    ensures r == e.(placement := placement, kind := r.kind)
    ensures e.kind.TextKind? ==> r.kind == e.kind.(text := text)
    ensures !e.kind.TextKind? ==> r.kind == e.kind
  {
    if e.kind.TextKind? then e.(placement := placement, kind := e.kind.(text := text))
    else e.(placement := placement)
  }

  /**
   * The store write of every handler, as written: the element captured when
   * the object was built, with the new placement (and, for text, the
   * textbox's text), replaces the element stored under that id.
   */
  function CommitCaptured(es: seq<Element>, captured: Element, placement: Placement, text: string): (r: seq<Element>)
  {
    ReplaceById(es, Committed(captured, placement, text))
  }

  /**
   * A time-frame edit made after the rebuild is undone by the next transform
   * commit: the end handle moves the end of a new text element to 10000, then
   * moving the object on the canvas writes back the end 30000 it was built with.
   */
  lemma CapturedCommitRevertsTimeFrame(p: Placement)
    ensures var captured := Element("t1", "Text t1", TextKind("Title", 32, 700, []), DefaultPlacement,
                                    TimeFrame(0.0, 30000.0), Some(RenderObject(true)));
      var dragged := ReplaceById([captured], Retime(captured, PartialTimeFrame(None, Some(10000.0)), 30000.0));
      && dragged[0].timeFrame == TimeFrame(0.0, 10000.0)
      && CommitCaptured(dragged, captured, p, "Title")[0].timeFrame == TimeFrame(0.0, 30000.0)
  {
  }

  /**
   * The evidently intended store write: the element currently stored under
   * `id` gets the new placement (and, for text, the reported text); its time
   * frame and every other element are kept.
   */
  function CommitCurrent(es: seq<Element>, id: ElementId, placement: Placement, text: string): (r: seq<Element>)
    ensures |r| == |es|
    ensures forall i :: 0 <= i < |es| && es[i].id == id ==>
      r[i].placement == placement && r[i].timeFrame == es[i].timeFrame && r[i].id == id
    ensures forall i :: 0 <= i < |es| && es[i].id == id ==>
      (es[i].kind.TextKind? ==> r[i].kind == es[i].kind.(text := text)) && (!es[i].kind.TextKind? ==> r[i].kind == es[i].kind)
    ensures forall i :: 0 <= i < |es| ==> r[i] == es[i].(placement := r[i].placement, kind := r[i].kind)
    ensures forall i :: 0 <= i < |es| && es[i].id != id ==> r[i] == es[i]
  {
    seq(|es|, i requires 0 <= i < |es| => if es[i].id == id then Committed(es[i], placement, text) else es[i])
  }

  /** With the corrected write, a time-frame edit survives a later transform commit. */
  lemma CurrentCommitKeepsTimeFrame(es: seq<Element>, e: Element, tp: PartialTimeFrame, maxTime: real,
                                    placement: Placement, text: string)
    ensures var dragged := ReplaceById(es, Retime(e, tp, maxTime));
      var r := CommitCurrent(dragged, e.id, placement, text);
      forall i :: 0 <= i < |es| && es[i].id == e.id ==>
        r[i].timeFrame == Retime(e, tp, maxTime).timeFrame && r[i].placement == placement
  {
  }
}
