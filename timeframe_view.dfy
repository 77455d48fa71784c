/**
 * The timeline row of one element: its selection and disabled state, and the
 * partial time frames its three drag handles pass to
 * `updateEditorElementTimeFrame`.
 */
module TimeFrameView {
  import opened Wrappers
  import opened Scene

  datatype Handle = StartHandle | BarHandle | EndHandle

  /**
   * The partial time frame a handle's `onChange` builds from the dragged
   * value: the start handle supplies only a start, the end handle only an
   * end, and the bar both, shifted together so that the duration it sends is
   * the element's current one.
   */
  function OnChange(e: Element, h: Handle, value: real): (r: PartialTimeFrame)
    ensures r.start.Some? <==> h != EndHandle
    ensures r.end.Some? <==> h != StartHandle
    ensures h != EndHandle ==> r.start == Some(value)
    ensures h == EndHandle ==> r.end == Some(value)
    ensures h == BarHandle ==> r.end.value - r.start.value == e.timeFrame.end - e.timeFrame.start
  {
    match h
    case StartHandle => PartialTimeFrame(Some(value), None)
    case BarHandle => PartialTimeFrame(Some(value), Some(value + (e.timeFrame.end - e.timeFrame.start)))
    case EndHandle => PartialTimeFrame(None, Some(value))
  }

  /** The `disabled` prop every handle of the row receives. */
  predicate Disabled(e: Element) {
    e.kind.AudioKind?
  }

  /** A row is selected when the active element, if any, has its element's id. */
  predicate IsSelected(active: Option<Element>, e: Element) {
    active.Some? && active.value.id == e.id
  }

  /** Dragging the start handle moves only the start, clamped at 0. */
  lemma StartDragMovesStart(e: Element, value: real, maxTime: real)
    ensures Retime(e, OnChange(e, StartHandle, value), maxTime)
            == e.(timeFrame := TimeFrame(if value < 0.0 then 0.0 else value, e.timeFrame.end))
  {
  }

  /** Dragging the end handle moves only the end, clamped at `maxTime`. */
  lemma EndDragMovesEnd(e: Element, value: real, maxTime: real)
    ensures Retime(e, OnChange(e, EndHandle, value), maxTime)
            == e.(timeFrame := TimeFrame(e.timeFrame.start, if value > maxTime then maxTime else value))
  {
  }

  /**
   * After the store clamps the bar's partial time frame, the duration is kept
   * exactly when no clamping happened, i.e. when the moved frame lies in
   * `[0, maxTime]`.
   */
  lemma BarDragKeepsDurationIffInRange(e: Element, value: real, maxTime: real)
    ensures var d := e.timeFrame.end - e.timeFrame.start;
      var r := Retime(e, OnChange(e, BarHandle, value), maxTime).timeFrame;
      r.end - r.start == d <==> 0.0 <= value && value + d <= maxTime
  {
  }

  /** No drag changes whether a row's handles are disabled. */
  lemma DragKeepsDisabled(e: Element, h: Handle, value: real, maxTime: real)
    ensures Disabled(Retime(e, OnChange(e, h, value), maxTime)) == Disabled(e)
  {
  }

  /** When the rows' ids are unique, at most one row is selected. */
  lemma SelectionIsExclusive(es: seq<Element>, active: Option<Element>)
    requires UniqueIds(es)
    ensures forall i, j :: 0 <= i < |es| && 0 <= j < |es| && IsSelected(active, es[i]) && IsSelected(active, es[j]) ==> i == j
  {
  }
}
