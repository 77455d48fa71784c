/**
 * The scene model of the editor store: the timed, placed elements and the
 * pure updates `addText`, `setElements` and the time-frame merge of
 * `updateEditorElementTimeFrame` perform on the element list.
 */
module Scene {
  import opened Wrappers
  import opened Dom

  type ElementId = string

  datatype Placement = Placement(
    x: real, y: real, width: real, height: real,
    rotation: real, scaleX: real, scaleY: real)

  /** The closed interval `[start, end]`, in milliseconds, during which an element is live. */
  datatype TimeFrame = TimeFrame(start: real, end: real)

  /** A `Partial<TimeFrame>`: either bound may be left out. */
  datatype PartialTimeFrame = PartialTimeFrame(start: Option<real>, end: Option<real>)

  /** An element's `type` together with the `properties` that go with it. */
  datatype Kind =
    | TextKind(text: string, fontSize: int, fontWeight: int, splittedTexts: seq<string>)
    | ImageKind(elementId: DomId, effect: string)
    | VideoKind(elementId: DomId, effect: string)
    | AudioKind(elementId: DomId)
    | OtherKind(typeName: string)

  /** The drawing-surface object bound to an element; only its `visible` flag is observed. */
  datatype RenderObject = RenderObject(visible: bool)

  datatype Element = Element(
    id: ElementId,
    name: string,
    kind: Kind,
    placement: Placement,
    timeFrame: TimeFrame,
    fabricObject: Option<RenderObject>)

  /** What the text panel passes to `addText`. */
  datatype TextInput = TextInput(text: string, size: int, weight: int)

  predicate UniqueIds(es: seq<Element>) {
    forall i, j :: 0 <= i < j < |es| ==> es[i].id != es[j].id
  }

  function Ids(es: seq<Element>): (r: set<ElementId>) {
    set i | 0 <= i < |es| :: es[i].id
  }

  const DefaultPlacement := Placement(0.0, 0.0, 100.0, 100.0, 0.0, 1.0, 1.0)

  /** `addText`: append a new text element with identifier `id`, live over the whole timeline. */
  function AppendText(es: seq<Element>, item: TextInput, id: ElementId, maxTime: real): (r: seq<Element>)
    ensures |r| == |es| + 1 && r[..|es|] == es
    ensures r[|es|].id == id && r[|es|].name == "Text " + id
    ensures r[|es|].kind == TextKind(item.text, item.size, item.weight, [])
    ensures r[|es|].placement == Placement(0.0, 0.0, 100.0, 100.0, 0.0, 1.0, 1.0)
    ensures r[|es|].timeFrame == TimeFrame(0.0, maxTime)
    ensures r[|es|].fabricObject == None
    ensures Ids(r) == Ids(es) + {id}
  {
    var elm := Element(id, "Text " + id, TextKind(item.text, item.size, item.weight, []),
                       DefaultPlacement, TimeFrame(0.0, maxTime), None);
    var r := es + [elm];
    assert r[|es|] == elm;
    assert Ids(r) == Ids(es) + {id} by {
      forall x | x in Ids(r) ensures x in Ids(es) + {id} {
        var i :| 0 <= i < |r| && r[i].id == x;
        if i < |es| { assert es[i].id == x; }
      }
      forall x | x in Ids(es) ensures x in Ids(r) {
        var i :| 0 <= i < |es| && es[i].id == x;
        assert r[i].id == x;
      }
    }
    r
  }

  lemma AppendFreshKeepsIdsUnique(es: seq<Element>, item: TextInput, id: ElementId, maxTime: real)
    requires UniqueIds(es) && id !in Ids(es)
    ensures UniqueIds(AppendText(es, item, id, maxTime))
  {
    var r := AppendText(es, item, id, maxTime);
    forall i, j | 0 <= i < j < |r| ensures r[i].id != r[j].id {
      if j == |es| {
        assert r[i] == es[i];
        assert es[i].id in Ids(es);
      } else {
        assert r[i] == es[i] && r[j] == es[j];
      }
    }
  }

  /** `setElements`: the element whose id is `item.id` is replaced by `item`. */
  function ReplaceById(es: seq<Element>, item: Element): (r: seq<Element>)
    ensures |r| == |es|
    ensures forall i :: 0 <= i < |es| ==> r[i].id == es[i].id
    ensures forall i :: 0 <= i < |es| && es[i].id != item.id ==> r[i] == es[i]
    ensures forall i :: 0 <= i < |es| && es[i].id == item.id ==> r[i] == item
  {
    seq(|es|, i requires 0 <= i < |es| => if es[i].id == item.id then item else es[i])
  }

  /** An unknown id leaves the list as it was. */
  lemma ReplaceUnknownIdIsNoOp(es: seq<Element>, item: Element)
    requires item.id !in Ids(es)
    ensures ReplaceById(es, item) == es
  {
    var r := ReplaceById(es, item);
    forall i | 0 <= i < |es| ensures r[i] == es[i] {
      assert es[i].id in Ids(es);
    }
  }

  /** With unique ids, replacing by id is an update at the single matching index. */
  lemma ReplaceByIdIsUpdateAt(es: seq<Element>, item: Element, k: int)
    requires UniqueIds(es) && 0 <= k < |es| && es[k].id == item.id
    ensures ReplaceById(es, item) == es[k := item]
  {
  }

  lemma ReplaceKeepsIdsUnique(es: seq<Element>, item: Element)
    requires UniqueIds(es)
    ensures UniqueIds(ReplaceById(es, item)) && Ids(ReplaceById(es, item)) == Ids(es)
  {
    var r := ReplaceById(es, item);
    assert forall i :: 0 <= i < |es| ==> r[i].id == es[i].id;
    assert Ids(r) == Ids(es) by {
      forall x | x in Ids(r) ensures x in Ids(es) {
        var i :| 0 <= i < |r| && r[i].id == x;
        assert es[i].id == x;
      }
      forall x | x in Ids(es) ensures x in Ids(r) {
        var i :| 0 <= i < |es| && es[i].id == x;
        assert r[i].id == x;
      }
    }
  }

  /**
   * The clamping step of `updateEditorElementTimeFrame`: a supplied start below
   * 0 becomes 0 and a supplied end above `maxTime` becomes `maxTime`.
   */
  function ClampPartial(p: PartialTimeFrame, maxTime: real): (r: PartialTimeFrame)
    ensures r.start.Some? == p.start.Some? && r.end.Some? == p.end.Some?
    ensures p.start.Some? ==> 0.0 <= r.start.value
    ensures p.start.Some? && 0.0 <= p.start.value ==> r.start.value == p.start.value
    ensures p.start.Some? && p.start.value < 0.0 ==> r.start.value == 0.0
    ensures p.end.Some? ==> r.end.value <= maxTime
    ensures p.end.Some? && p.end.value <= maxTime ==> r.end.value == p.end.value
    ensures p.end.Some? && p.end.value > maxTime ==> r.end.value == maxTime
  {
    PartialTimeFrame(
      if p.start.Some? && p.start.value < 0.0 then Some(0.0) else p.start,
      if p.end.Some? && p.end.value > maxTime then Some(maxTime) else p.end)
  }

  /** The spread merge of a partial time frame: supplied bounds win, the others are kept. */
  function MergeTimeFrame(tf: TimeFrame, p: PartialTimeFrame): (r: TimeFrame) {
    TimeFrame(p.start.GetOr(tf.start), p.end.GetOr(tf.end))
  }

  /** The element `updateEditorElementTimeFrame` builds and passes to `setElements`. */
  function Retime(e: Element, p: PartialTimeFrame, maxTime: real): (r: Element) {
    e.(timeFrame := MergeTimeFrame(e.timeFrame, ClampPartial(p, maxTime)))
  }

  /** Only the time frame changes; each bound is clamped if supplied and kept if not. */
  lemma RetimeClampsSuppliedBounds(e: Element, p: PartialTimeFrame, maxTime: real)
    ensures var r := Retime(e, p, maxTime);
      && r == e.(timeFrame := r.timeFrame)
      && r.timeFrame.start == (if p.start.None? then e.timeFrame.start
                               else if p.start.value < 0.0 then 0.0 else p.start.value)
      && r.timeFrame.end == (if p.end.None? then e.timeFrame.end
                             else if p.end.value > maxTime then maxTime else p.end.value)
  {
  }

  /** The bounds `0 <= start` and `end <= maxTime` survive every retime. */
  lemma RetimeKeepsOuterBounds(e: Element, p: PartialTimeFrame, maxTime: real)
    requires 0.0 <= e.timeFrame.start && e.timeFrame.end <= maxTime
    ensures 0.0 <= Retime(e, p, maxTime).timeFrame.start
    ensures Retime(e, p, maxTime).timeFrame.end <= maxTime
  {
  }

  /** `start <= end` is not enforced: moving the start past the end is kept as is. */
  lemma RetimeDoesNotOrderBounds()
    ensures var e := Element("a", "Text a", TextKind("Title", 32, 700, []), DefaultPlacement,
                             TimeFrame(0.0, 1000.0), None);
      Retime(e, PartialTimeFrame(Some(2000.0), None), 30000.0).timeFrame == TimeFrame(2000.0, 1000.0)
  {
  }
}
