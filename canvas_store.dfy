/**
 * The editor store (`useCanvasStore`): one object holding the element list,
 * the active element, the playback clock and the drawing surface, and the
 * operations that update them in place.
 */
module CanvasStore {
  import opened Wrappers
  import opened Dom
  import opened Scene
  import opened Playback
  import opened Visibility
  import opened RenderGraph

  /** The part of the store a clock tick touches. */
  datatype Snapshot = Snapshot(clock: ClockState, elements: seq<Element>)

  /** `updateTimeTo(t)`: the clock moves to the frame of `t` and visibility follows `t` itself. */
  function TimeTo(s: Snapshot, t: real): (r: Snapshot) {
    Snapshot(ClockSetTime(s.clock, t), ApplyVisibility(s.elements, t))
  }

  /** A second `updateTimeTo` with the same time changes nothing. */
  lemma TimeToIdempotent(s: Snapshot, t: real)
    ensures TimeTo(TimeTo(s, t), t) == TimeTo(s, t)
  {
    ApplyVisibilityIdempotent(s.elements, t);
  }

  /** `playFrames`' effect on the clock and on the elements. */
  function PlayFrame(s: Snapshot, now: real): (r: Snapshot) {
    if !s.clock.playing then s
    else Snapshot(ClockTick(s.clock, now), ApplyVisibility(s.elements, TickTime(s.clock, now)))
  }

  /** The store after ticks at wall-clock times `nows`, in order. */
  function PlayFrameRun(s: Snapshot, nows: seq<real>): (r: Snapshot)
    decreases |nows|
  {
    if nows == [] then s else PlayFrame(PlayFrameRun(s, nows[..|nows| - 1]), nows[|nows| - 1])
  }

  /**
   * Drift freedom for the whole tick: after any run of ticks that stays within
   * `maxTime`, the clock and every element's visibility are what one tick at
   * the last instant gives, so they depend only on the total elapsed time.
   */
  lemma {:induction false} PlayFramesDriftFree(s: Snapshot, nows: seq<real>)
    requires s.clock.playing && nows != []
    requires forall i :: 0 <= i < |nows| ==> TickTime(s.clock, nows[i]) <= s.clock.maxTime
    ensures PlayFrameRun(s, nows) == PlayFrame(s, nows[|nows| - 1])
  {
    var init := nows[..|nows| - 1];
    var last := nows[|nows| - 1];
    if init != [] {
      PlayFramesDriftFree(s, init);
      var prev := init[|init| - 1];
      assert prev == nows[|nows| - 2];
      ApplyVisibilityOverrides(s.elements, TickTime(s.clock, prev), TickTime(s.clock, last));
    }
  }

  /**
   * The tick that passes `maxTime` rewinds the clock to 0 and stops it, but
   * leaves the visibility computed for the passed time: every element that
   * ends by `maxTime` is hidden although the clock shows 0.
   */
  lemma EndOfPlaybackHidesEndedElements(s: Snapshot, now: real)
    requires s.clock.playing && TickTime(s.clock, now) > s.clock.maxTime
    ensures var r := PlayFrame(s, now);
      && !r.clock.playing && r.clock.currentKeyFrame == 0
      && forall i :: 0 <= i < |s.elements| && s.elements[i].fabricObject.Some?
                       && s.elements[i].timeFrame.end <= s.clock.maxTime ==>
           r.elements[i].fabricObject == Some(RenderObject(false))
  {
  }

  class EditorStore {
    var canvas: Surface?
    var maxTime: real
    var activeElement: Option<Element>
    var elements: seq<Element>
    var currentKeyFrame: int
    var fps: FrameRate
    var playing: bool
    var startedTime: real
    var startedTimePlay: real

    /** Element ids stay unique: new ids are fresh and no update changes an id. */
    ghost predicate Valid()
      reads this
    {
      UniqueIds(elements)
    }

    function Clock(): (r: ClockState)
      reads this
    {
      ClockState(currentKeyFrame, fps, playing, startedTime, startedTimePlay, maxTime)
    }

    function Snap(): (r: Snapshot)
      reads this
    {
      Snapshot(Clock(), elements)
    }

    /** `getCurrentTimeframe`: the start of the current frame, in milliseconds. */
    function GetCurrentTimeframe(): (r: real)
      reads this
    {
      CurrentTime(Clock())
    }

    constructor ()
      ensures Valid()
      ensures canvas == null && activeElement == None && elements == []
      ensures Clock() == ClockState(0, 60, false, 0.0, 0.0, 30000.0)
    {
      canvas := null;
      maxTime := 30.0 * 1000.0;
      activeElement := None;
      elements := [];
      currentKeyFrame := 0;
      fps := 60;
      playing := false;
      startedTime := 0.0;
      startedTimePlay := 0.0;
    }

    method SetCanvas(c: Surface)
      modifies this`canvas
      ensures canvas == c
    {
      canvas := c;
    }

    method SetActiveElement(elm: Option<Element>)
      modifies this`activeElement
      ensures activeElement == elm
    {
      activeElement := elm;
    }

    /** `addText`; `id` stands for the fresh identifier `getUID` returns. */
    method AddText(item: TextInput, id: ElementId)
      requires Valid() && id !in Ids(elements)
      modifies this`elements
      ensures Valid()
      ensures elements == AppendText(old(elements), item, id, maxTime)
    {
      AppendFreshKeepsIdsUnique(elements, item, id, maxTime);
      elements := AppendText(elements, item, id, maxTime);
    }

    method SetElements(item: Element)
      requires Valid()
      modifies this`elements
      ensures Valid()
      ensures elements == ReplaceById(old(elements), item)
    {
      ReplaceKeepsIdsUnique(elements, item);
      elements := ReplaceById(elements, item);
    }

    method SetCurrentTimeInMs(time: real)
      modifies this`currentKeyFrame
      ensures currentKeyFrame == FrameOf(time, fps)
      ensures GetCurrentTimeframe() <= time < GetCurrentTimeframe() + FrameDuration(fps)
    {
      currentKeyFrame := (time / 1000.0 * fps as real).Floor;
      QuantizationBounds(time, fps);
    }

    /** Seek every video element's document video to the current time and play or pause it. */
    method UpdateVideoElements(doc: Document)
      modifies doc
      ensures doc.nodes == SyncVideos(elements, old(doc.nodes), GetCurrentTimeframe(), playing)
    {
      var i := 0;
      while i < |elements|
        invariant 0 <= i <= |elements|
        invariant doc.nodes == SyncVideos(elements[..i], old(doc.nodes), GetCurrentTimeframe(), playing)
      {
        var element := elements[i];
        if element.kind.VideoKind? {
          var video := element.kind.elementId;
          if video in doc.nodes && doc.nodes[video].VideoNode? {
            var videoTime := (GetCurrentTimeframe() - element.timeFrame.start) / 1000.0;
            doc.nodes := doc.nodes[video := VideoNode(videoTime, playing)];
          }
        }
        assert elements[..i + 1][..i] == elements[..i];
        i := i + 1;
      }
      assert elements[..i] == elements;
    }

    /** `setPlaying`; `now` stands for `Date.now()`, and `nextFrame` says whether a tick was scheduled. */
    method SetPlaying(isPlayed: bool, now: real, doc: Document) returns (nextFrame: bool)
      modifies this`playing, this`startedTime, this`startedTimePlay, doc
      ensures Clock() == ClockSetPlaying(old(Clock()), isPlayed, now)
      ensures doc.nodes == SyncVideos(elements, old(doc.nodes), GetCurrentTimeframe(), isPlayed)
      ensures nextFrame == isPlayed
    {
      playing := isPlayed;
      UpdateVideoElements(doc);
      if isPlayed {
        startedTime := now;
        startedTimePlay := GetCurrentTimeframe();
      }
      nextFrame := isPlayed;
    }

    /** Show exactly the elements whose time frame contains `newTime`. */
    method UpdateTimeTo(newTime: real)
      requires Valid()
      modifies this`currentKeyFrame, this`elements
      ensures Valid()
      ensures Snap() == TimeTo(old(Snap()), newTime)
    {
      SetCurrentTimeInMs(newTime);
      var i := 0;
      while i < |elements|
        invariant 0 <= i <= |elements| == |old(elements)|
        invariant currentKeyFrame == FrameOf(newTime, fps)
        invariant forall k :: 0 <= k < i ==> elements[k] == ShowAt(old(elements)[k], newTime)
        invariant forall k :: i <= k < |elements| ==> elements[k] == old(elements)[k]
      {
        var e := elements[i];
        if e.fabricObject.Some? {
          var isInside := e.timeFrame.start <= newTime && newTime <= e.timeFrame.end;
          elements := elements[i := e.(fabricObject := Some(e.fabricObject.value.(visible := isInside)))];
        }
        i := i + 1;
      }
      assert elements == ApplyVisibility(old(elements), newTime);
      ApplyVisibilityKeepsIds(old(elements), newTime);
    }

    /** One animation-frame tick at wall-clock time `now`. */
    method PlayFrames(now: real, doc: Document) returns (nextFrame: bool)
      requires Valid()
      modifies this`currentKeyFrame, this`elements, this`playing, this`startedTime, this`startedTimePlay, doc
      ensures Valid()
      ensures Snap() == PlayFrame(old(Snap()), now)
      ensures doc.nodes == if old(playing) && TickTime(old(Clock()), now) > maxTime
                           then SyncVideos(old(elements), old(doc.nodes), 0.0, false)
                           else old(doc.nodes)
      ensures nextFrame == (old(playing) && TickTime(old(Clock()), now) <= maxTime)
    {
      if !playing {
        return false;
      }
      var elapsedTime := now - startedTime;
      var newTime := startedTimePlay + elapsedTime;
      UpdateTimeTo(newTime);
      if newTime > maxTime {
        SetCurrentTimeInMs(0.0);
        nextFrame := SetPlaying(false, now, doc);
        SyncVideosIgnoresVisibility(old(elements), newTime, old(doc.nodes), 0.0, false);
      } else {
        nextFrame := true;
      }
    }

    /** `handleSeek`: pause if playing, move the clock and visibility to `seek`, then resync the videos. */
    method HandleSeek(seek: real, doc: Document)
      requires Valid()
      modifies this`currentKeyFrame, this`elements, this`playing, this`startedTime, this`startedTimePlay, doc
      ensures Valid()
      ensures Clock() == ClockSeek(old(Clock()), seek)
      ensures elements == ApplyVisibility(old(elements), seek)
      ensures doc.nodes == SyncVideos(old(elements), old(doc.nodes), GetCurrentTimeframe(), false)
    {
      ghost var n0 := doc.nodes;
      if playing {
        var _ := SetPlaying(false, 0.0, doc);
      }
      ghost var n1 := doc.nodes;
      UpdateTimeTo(seek);
      UpdateVideoElements(doc);
      SyncVideosIgnoresVisibility(old(elements), seek, n1, GetCurrentTimeframe(), false);
      if old(playing) {
        SyncVideosOverrides(old(elements), n0, CurrentTime(old(Clock())), false, GetCurrentTimeframe(), false);
      }
    }

    /** `updateEditorElementTimeFrame`: videos are resynced first, then the clamped, merged element is stored. */
    method UpdateEditorElementTimeFrame(editorElement: Element, timeFrame: PartialTimeFrame, doc: Document)
      requires Valid()
      modifies this`elements, doc
      ensures Valid()
      ensures doc.nodes == SyncVideos(old(elements), old(doc.nodes), GetCurrentTimeframe(), playing)
      ensures elements == ReplaceById(old(elements), Retime(editorElement, timeFrame, maxTime))
    {
      var newEditorElement := Retime(editorElement, timeFrame, maxTime);
      UpdateVideoElements(doc);
      SetElements(newEditorElement);
    }

    /**
     * `refreshElements`: without a canvas nothing happens; otherwise the surface
     * is emptied and rebuilt in list order up to the first element of an
     * unsupported type, where the rebuild throws.
     */
    method RefreshElements(doc: Document) returns (outcome: Outcome)
      requires Valid()
      modifies this`elements, canvas
      ensures Valid()
      ensures old(canvas) == null ==> elements == old(elements) && outcome == Completed
      ensures canvas != null ==>
        var k := FirstUnsupported(old(elements));
        && elements == BindUpTo(old(elements), k, doc.nodes)
        && canvas.objects == SurfaceFor(old(elements)[..k], doc.nodes)
        && (outcome == Completed <==> k == |old(elements)|)
    {
      if canvas == null {
        return Completed;
      }
      var surface := canvas;
      surface.objects := [];
      var index := 0;
      while index < |elements|
        invariant 0 <= index <= |elements| == |old(elements)|
        invariant forall j :: 0 <= j < index ==> Supported(old(elements)[j])
        invariant elements == BindUpTo(old(elements), index, doc.nodes)
        invariant surface.objects == SurfaceFor(old(elements)[..index], doc.nodes)
      {
        var element := elements[index];
        var created := false;
        match element.kind {
          case VideoKind(elementId, _) =>
            created := elementId in doc.nodes;
          case ImageKind(elementId, _) =>
            created := elementId in doc.nodes;
          case AudioKind(_) =>
          case TextKind(_, _, _, _) =>
            created := true;
          case OtherKind(_) =>
            BindUpToKeepsIds(old(elements), index, doc.nodes);
            return Thrown("Not implemented");
        }
        assert created == GetsObject(old(elements)[index], doc.nodes);
        if created {
          elements := elements[index := element.(fabricObject := Some(RenderObject(true)))];
          surface.objects := surface.objects + [element.id];
        }
        RebuildStep(old(elements), index, doc.nodes);
        index := index + 1;
      }
      assert old(elements)[..index] == old(elements);
      BindUpToKeepsIds(old(elements), index, doc.nodes);
      outcome := Completed;
    }
  }
}
