# Editor store of a browser video editor, modelled in Dafny

The editor keeps a list of timed, placed elements (text, image, video, audio),
a playback clock, and a drawing surface that shows them. All of it lives in
one store object, `useCanvasStore` in `app/store/canvas.ts`. The timeline row
in `app/edit/components/Timeline/TimeFrameView.tsx` turns handle drags into
time-frame updates on that store. This project models both, and proves what
they promise.

Modules:

- `Scene` (`scene.dfy`): the element datatypes. It also holds the pure list
  updates: `addText`, `setElements` (replace by id) and the clamp-and-merge
  step of `updateEditorElementTimeFrame`.
- `Playback` (`playback.dfy`): the frame-quantized clock. It converts between
  milliseconds and frames and defines `setPlaying`'s anchors, `playFrames`'
  tick and `handleSeek`, as functions on a `ClockState` value.
- `Visibility` (`visibility.dfy`): the two per-element passes. `updateTimeTo`
  sets each render object's `visible` flag. `updateVideoElements` seeks and
  plays or pauses each video in the document.
- `RenderGraph` (`render_graph.dfy`): the rebuild done by `refreshElements`.
  The drawing surface is a `Surface` object whose content is the sequence of
  the element ids its objects are named after.
- `Transform` (`transform.dfy`): the placement each transform-commit handler
  computes, and the store write it makes.
- `TimeFrameView` (`timeframe_view.dfy`): the three handles' `onChange`
  partial time frames, and the `disabled` and `isSelected` rules.
- `CanvasStore` (`canvas_store.dfy`): the store itself, as the class
  `EditorStore` with the store's fields. Its methods update those fields in
  place and are proved against the functions above.
- `Dom` (`dom.dfy`): the document nodes the store looks up by id. `Wrappers`
  (`wrappers.dfy`): `Option`.

Wall-clock time (`Date.now()`) is a `now` parameter. The identifier `getUID`
returns is an `id` parameter, required to be fresh. `requestAnimationFrame`
becomes a returned flag `nextFrame` that says whether another tick was
scheduled. The document is a `Document` object whose `nodes` map is updated
in place. Times are exact `real` milliseconds.

Where the code differs from the intended design, the model follows the code:

- A time frame's `start <= end` is never enforced (`RetimeDoesNotOrderBounds`).
- `handleSeek` and `updateTimeTo` do not clamp the seek time to
  `[0, maxTime]` (`SeekPastEndIsNotClamped`).
- A rebuild that skips an element leaves the render object from an earlier
  rebuild bound to it. This happens to an image or video whose document node
  is missing (audio never gets an object, so it has none to keep). That
  object is no longer on the surface (`RebuildIsomorphism`, last clause).
- `updateEditorElementTimeFrame` resyncs the videos before it stores the new
  time frame, so the resync uses the old one.
- When playback passes `maxTime`, the clock is rewound to frame 0, but the
  visibility stays as computed for the passed time
  (`EndOfPlaybackHidesEndedElements`).
- Video positions use the quantized clock time. Visibility uses the
  unquantized time given to `updateTimeTo`.

## Model

| member | source | states |
|---|---|---|
| `Scene.AppendText` | app/store/canvas.ts:72-100 | exactly one element is appended at the end: the given id, name `Text <id>`, text kind from the input, placement {0,0,100,100,0,1,1}, time frame [0, maxTime], no render object; earlier elements unchanged; ids grow by exactly the new id |
| `Scene.AppendFreshKeepsIdsUnique` | app/store/canvas.ts:72-100 | appending with a fresh id keeps element ids unique |
| `Scene.ReplaceById` | app/store/canvas.ts:105-110 | length, order and every id are kept; elements with the item's id become the item, all others are unchanged |
| `Scene.ReplaceUnknownIdIsNoOp` | app/store/canvas.ts:105-110 | an id not in the list leaves the list unchanged |
| `Scene.ReplaceByIdIsUpdateAt` | app/store/canvas.ts:105-110 | with unique ids, replace-by-id is an update at the single matching index |
| `Scene.ReplaceKeepsIdsUnique` | app/store/canvas.ts:105-110 | replace-by-id keeps ids unique and the id set unchanged |
| `Scene.ClampPartial` | app/store/canvas.ts:388-393 | supplied bounds stay supplied; a supplied start below 0 becomes 0, one at or above 0 is kept; a supplied end above maxTime becomes maxTime, one at or below is kept |
| `Scene.Retime` | app/store/canvas.ts:384-400 | the element `updateEditorElementTimeFrame` stores: the partial time frame is clamped, then spread over the old time frame |
| `Scene.RetimeClampsSuppliedBounds` | app/store/canvas.ts:384-400 | the merged element differs only in its time frame; each bound is the clamped supplied value, or the old bound when not supplied |
| `Scene.RetimeKeepsOuterBounds` | app/store/canvas.ts:384-400 | a frame with 0 <= start and end <= maxTime keeps both bounds after any update |
| `Scene.RetimeDoesNotOrderBounds` | app/store/canvas.ts:384-400 | moving the start to 2000 on a frame [0, 1000] yields [2000, 1000]: start <= end is not enforced |
| `Playback.FrameOf` | app/store/canvas.ts:380-383 | the frame `setCurrentTimeInMs` stores for t: floor(t / 1000 * fps) |
| `Playback.TimeOfFrame` | app/store/canvas.ts:377-379 | the milliseconds `getCurrentTimeframe` shows for frame k: k * 1000 / fps |
| `Playback.QuantizationBounds` | app/store/canvas.ts:377-383 | the start of frame floor(t*fps/1000) is at or before t, and t is before the start of the next frame |
| `Playback.FrameOfTimeOfFrame` | app/store/canvas.ts:377-383 | converting a frame to milliseconds and back gives the same frame |
| `Playback.ClockSetTimeQuantizes` | app/store/canvas.ts:380-383 | after setting the clock to t, getCurrentTimeframe() <= t < getCurrentTimeframe() + 1000/fps |
| `Playback.ClockSetTimeFixedPoint` | app/store/canvas.ts:377-383 | setting the clock to the time it shows leaves it unchanged |
| `Playback.ClockSetPlaying` | app/store/canvas.ts:347-360 | the play flag becomes the given one and the shown time does not move; on start, a tick at the starting instant computes exactly the shown time |
| `Playback.ClockTick` | app/store/canvas.ts:361-376 | the clock after one `playFrames` tick (its properties are stated by `ClockTickOutcome`) |
| `Playback.ClockTickOutcome` | app/store/canvas.ts:361-376 | a paused clock does not tick; a tick past maxTime resets the frame to 0 and stops; otherwise the clock plays on at the frame of startedTimePlay + (now - startedTime); anchors, fps and maxTime never change |
| `Playback.PlayThenTick` | app/store/canvas.ts:347-376 | starting playback and ticking e ms later shows the frame of the start time plus e, still playing, while that is within maxTime |
| `Playback.PlayDoesNotJump` | app/store/canvas.ts:347-376 | a tick at the same instant as the start of playback leaves the clock as the start left it |
| `Playback.ClockTicksDriftFree` | app/store/canvas.ts:361-376 | any run of ticks within maxTime leaves the clock as one tick at the last instant would: it depends only on total elapsed time |
| `Playback.ClockSeek` | app/store/canvas.ts:414-418 | the clock after `handleSeek`: paused if playing, then set to the seek time (properties in `ClockSeekPausesAndMoves`) |
| `Playback.ClockSeekPausesAndMoves` | app/store/canvas.ts:414-418 | a seek always pauses and sets the frame to floor(s*fps/1000), so the shown time is within one frame below s |
| `Playback.SeekPastEndIsNotClamped` | app/store/canvas.ts:414-418 | at 60 fps and maxTime 30000, seeking to 35000 gives frame 2100 and shown time 35000: no clamping |
| `Visibility.ApplyVisibility` | app/store/canvas.ts:407-412 | the element list after the visibility pass of `updateTimeTo` (properties in the lemmas below) |
| `Visibility.ApplyVisibilitySetsFlags` | app/store/canvas.ts:405-413 | each element with a render object gets visible = (start <= t <= end) for the unquantized t; elements without one, and all other fields, are untouched |
| `Visibility.ApplyVisibilityOverrides` | app/store/canvas.ts:405-413 | a later visibility pass completely overrides an earlier one |
| `Visibility.ApplyVisibilityIdempotent` | app/store/canvas.ts:405-413 | a second visibility pass with the same time changes nothing |
| `Visibility.ApplyVisibilityKeepsIds` | app/store/canvas.ts:405-413 | the visibility pass keeps every id, and unique ids stay unique |
| `Visibility.SyncVideos` | app/store/canvas.ts:321-340 | the document after `updateVideoElements`, one video element at a time in list order (characterised by `SyncVideosAt`) |
| `Visibility.SyncVideosAt` | app/store/canvas.ts:321-340 | a video node referenced by a video element ends at position (currentTime - start)/1000 of the last such element, playing iff the store plays; every other node and the node set are unchanged |
| `Visibility.SyncVideosKeepsKeys` | app/store/canvas.ts:321-340 | the video pass neither adds nor removes document nodes |
| `Visibility.SyncVideosOverrides` | app/store/canvas.ts:321-340 | the last video pass decides every video's state, whatever an earlier one wrote |
| `Visibility.SyncVideosIdempotent` | app/store/canvas.ts:321-340 | repeating the video pass with the same time and play state changes nothing |
| `Visibility.SyncVideosSetsEachVideo` | app/store/canvas.ts:327-338 | a video element whose node is a video, with no later video element on the same node, sets that node to its position and the store's play state |
| `Visibility.LastVideoForIsLast` | app/store/canvas.ts:323-339 | the last video element on a node is the one no later video element shares the node with |
| `Visibility.SyncVideosIgnoresVisibility` | app/store/canvas.ts:321-340 | visibility changes do not affect what the video pass writes |
| `RenderGraph.GetsObject` | app/store/canvas.ts:119-304 | the elements a rebuild creates an object for; only supported, non-audio elements can get one |
| `RenderGraph.BindUpTo` | app/store/canvas.ts:117-304 | the element list after the rebuild loop has handled its first k elements |
| `RenderGraph.SurfaceFor` | app/store/canvas.ts:116-304 | the ids of the objects a rebuild puts on the surface, in list order (characterised by `SurfaceForMembership`) |
| `RenderGraph.FirstUnsupported` | app/store/canvas.ts:117-119 | the index returned is the first element of a type other than text, image, video or audio, or the list length when there is none |
| `RenderGraph.SurfaceForMembership` | app/store/canvas.ts:116-304 | an id is on the rebuilt surface iff some element with that id gets an object: text always, image/video when its document node exists, audio never |
| `RenderGraph.SurfaceForNoDuplicates` | app/store/canvas.ts:116-304 | with unique ids the surface holds one object per id |
| `RenderGraph.AllTextSurface` | app/store/canvas.ts:254-272 | for an all-text list the surface lists every id in list order |
| `RenderGraph.RebuildIsomorphism` | app/store/canvas.ts:111-304 | a completed rebuild puts on the surface exactly the ids of elements that get an object, once each; they are bound to a new visible object; all other elements keep what they had, stale object included |
| `RenderGraph.RebuildStep` | app/store/canvas.ts:117-304 | one loop turn binds element k and appends its id iff it gets an object |
| `RenderGraph.BindUpToKeepsIds` | app/store/canvas.ts:146-271 | binding render objects keeps length, ids and their uniqueness |
| `Transform.CommitImage` | app/store/canvas.ts:226-242 | the image handler's placement: size kept, both scales set to the same value, which is 1 unless the reported x-scale is positive |
| `Transform.FitScale` | app/store/canvas.ts:219-222 | `toScale`: scaled by it, an image of the given natural size exactly fills the placement's width and height |
| `Transform.ImageCommitRoundTrip` | app/store/canvas.ts:219-242 | an image object committed at the scale it was created with (the `toScale` x-scale of its natural size times the placement x-scale, both positive) gives back the placement's x-scale; with position and angle unchanged the placement comes back exactly iff its two scales were equal |
| `Transform.CommitVideo` | app/store/canvas.ts:152-172 | the video handler's placement (properties in `VideoCommitKeepsDisplayedSize`) |
| `Transform.VideoCommitKeepsDisplayedSize` | app/store/canvas.ts:156-172 | a video commit folds the reported scale into width and height, resets both scales to 1, keeps the displayed size, and a repeat commit of the result changes nothing |
| `Transform.CommitText` | app/store/canvas.ts:273-287 | the text handler's placement: every reported field replaces the stored one (properties in `TextCommitRoundTrip`) |
| `Transform.TextCommitRoundTrip` | app/store/canvas.ts:277-287 | a text object reporting its own placement, or nothing, commits the placement unchanged |
| `Transform.Committed` | app/store/canvas.ts:288-297 | the element a handler writes: only the placement changes, and for a text element also the text, which becomes the textbox's; font fields, id and time frame are kept |
| `Transform.CommitCaptured` | app/store/canvas.ts:173-177 | as written: every handler (also lines 243-247 and 288-297) replaces the stored element by the one captured at the rebuild, with the new placement and, for text, the textbox's text |
| `Transform.CapturedCommitRevertsTimeFrame` | app/store/canvas.ts:173-177 | as written: after the end handle moves a text's end to 10000, a transform commit writes back the captured end 30000 |
| `Transform.CommitCurrent` | app/store/canvas.ts:173-177 | corrected write: the element stored under the id gets the new placement and, for text, the reported text, keeping its time frame and all else; every other element is unchanged |
| `Transform.CurrentCommitKeepsTimeFrame` | app/store/canvas.ts:173-177 | with the corrected write, a time-frame edit survives a later transform commit |
| `TimeFrameView.OnChange` | app/edit/components/Timeline/TimeFrameView.tsx:37-81 | the start handle sends only start = value, the end handle only end = value, the bar both, with end - start equal to the element's current duration |
| `TimeFrameView.Disabled` | app/edit/components/Timeline/TimeFrameView.tsx:17 | a row's handles are disabled exactly for audio elements |
| `TimeFrameView.IsSelected` | app/edit/components/Timeline/TimeFrameView.tsx:18 | a row is selected when the active element exists and has the row element's id |
| `TimeFrameView.StartDragMovesStart` | app/edit/components/Timeline/TimeFrameView.tsx:37-41 | the start handle sends only start = value; after the store the start is max(value, 0) and all else is kept |
| `TimeFrameView.EndDragMovesEnd` | app/edit/components/Timeline/TimeFrameView.tsx:77-81 | the end handle sends only end = value; after the store the end is min(value, maxTime) and all else is kept |
| `TimeFrameView.BarDragKeepsDurationIffInRange` | app/edit/components/Timeline/TimeFrameView.tsx:58-64 | after the store's clamping the duration is kept iff the moved frame lies within [0, maxTime] |
| `TimeFrameView.DragKeepsDisabled` | app/edit/components/Timeline/TimeFrameView.tsx:17 | no drag changes whether a row's handles are disabled |
| `TimeFrameView.SelectionIsExclusive` | app/edit/components/Timeline/TimeFrameView.tsx:18 | with unique ids, at most one row is selected |
| `CanvasStore.TimeTo` | app/store/canvas.ts:405-413 | the clock and elements after `updateTimeTo(t)`: the frame of t, visibility for t itself |
| `CanvasStore.PlayFrame` | app/store/canvas.ts:361-376 | the clock and elements after one `playFrames` tick: the visibility pass runs at the tick time before any rewind |
| `CanvasStore.TimeToIdempotent` | app/store/canvas.ts:405-413 | a second updateTimeTo with the same time changes neither clock nor elements |
| `CanvasStore.PlayFrameRun` | app/store/canvas.ts:361-376 | the clock and elements after a run of `playFrames` ticks at the given instants, in order (see `PlayFramesDriftFree`) |
| `CanvasStore.PlayFramesDriftFree` | app/store/canvas.ts:361-376 | any run of ticks within maxTime leaves clock and visibility as one tick at the last instant would |
| `CanvasStore.EndOfPlaybackHidesEndedElements` | app/store/canvas.ts:365-371 | the tick that passes maxTime stops at frame 0, yet hides every rendered element ending by maxTime |
| `CanvasStore.EditorStore.constructor` | app/store/canvas.ts:342-346 | the store starts at frame 0, 60 fps, paused, anchors 0, maxTime 30000, with no canvas, no active element and no elements |
| `CanvasStore.EditorStore.SetCanvas` | app/store/canvas.ts:55 | the store's canvas becomes the given surface |
| `CanvasStore.EditorStore.SetActiveElement` | app/store/canvas.ts:58-60 | the active element becomes the given one (or none), nothing else changes |
| `CanvasStore.EditorStore.AddText` | app/store/canvas.ts:72-100 | the element list becomes AppendText of the old one; ids stay unique |
| `CanvasStore.EditorStore.SetElements` | app/store/canvas.ts:105-110 | the element list becomes ReplaceById of the old one; ids stay unique |
| `CanvasStore.EditorStore.GetCurrentTimeframe` | app/store/canvas.ts:377-379 | the shown time: the start of the current frame |
| `CanvasStore.EditorStore.SetCurrentTimeInMs` | app/store/canvas.ts:380-383 | the frame becomes floor(t*fps/1000), and getCurrentTimeframe() <= t < getCurrentTimeframe() + 1000/fps |
| `CanvasStore.EditorStore.UpdateVideoElements` | app/store/canvas.ts:321-340 | the document becomes SyncVideos of the old one at the current frame time and play state |
| `CanvasStore.EditorStore.SetPlaying` | app/store/canvas.ts:347-360 | the clock becomes ClockSetPlaying (on start: startedTime = now, startedTimePlay = shown time), videos are resynced with the new flag, and a tick is scheduled iff playing starts |
| `CanvasStore.EditorStore.UpdateTimeTo` | app/store/canvas.ts:405-413 | the clock moves to the frame of t and the elements become ApplyVisibility of the old ones at t |
| `CanvasStore.EditorStore.PlayFrames` | app/store/canvas.ts:361-376 | clock and elements become PlayFrame of the old ones; videos are resynced (paused at 0) only when the tick stops playback; the next tick is scheduled iff it does not |
| `CanvasStore.EditorStore.HandleSeek` | app/store/canvas.ts:414-421 | the clock becomes ClockSeek (paused, frame of the unclamped seek), visibility follows the seek time, videos end synced to the new time and paused |
| `CanvasStore.EditorStore.UpdateEditorElementTimeFrame` | app/store/canvas.ts:384-404 | videos are resynced against the old list, then the element is replaced by its clamped-and-merged copy; ids stay unique |
| `CanvasStore.EditorStore.RefreshElements` | app/store/canvas.ts:111-320 | without a canvas nothing changes; otherwise the surface is emptied and rebuilt in order up to the first unsupported element, the elements before it are bound, and the outcome is Thrown iff such an element exists |

## Findings

| source | as written | input that shows it | evidently intended | confidence | as-written member | corrected member |
|---|---|---|---|---|---|---|
| app/store/canvas.ts:173-177 | each transform-commit handler writes `{...element, placement}` (the text handler also sets the text to the textbox's), where `element` is the object captured when the surface was rebuilt (also lines 243-247 and 288-297) | add a text (time frame [0, 30000]), drag its end handle to 10000, then move the text on the canvas: its end is 30000 again | the commit changes only the placement (and, for text, the text) of the element currently stored under that id | high; not executed | `Transform.CapturedCommitRevertsTimeFrame` | `Transform.CurrentCommitKeepsTimeFrame` |

## Left out

- fabric.js object construction and its styling options, `canvas.renderAll`, and the `object:modified` and `selected` handler registrations. These are foreign library calls. The commit handlers' placement arithmetic is modelled in `Transform`. Each rebuild adds another `object:modified` handler to the canvas (lines 152, 226, 273), and none is ever removed. That leak is not modelled.
- `setActiveElementCanvas`, and the re-selection of the active element's object after a rebuild (lines 61-67, 312-315). Both only call `setActiveObject` or `discardActiveObject` on the canvas.
- Aliasing of element objects. The source mutates `element.fabricObject` in place, which a held reference such as `activeElement` also sees. The model stores values, so `activeElement` is a copy. The same holds for the element a transform-commit handler captured: in the source it shares its `fabricObject` with the stored element, so writing `{...element, placement}` never changes `visible`. In the model the captured value keeps the flag it had when it was captured, so `CommitCaptured` can bring back a `visible` flag that a later visibility pass had changed.
- `properties.imageObject`, and the width and height assigned to the document's video and image nodes during a rebuild. Nothing in the store reads them.
- `addImage`, `addVideo` and the `texts`, `images` and `videos` lists. They only append strings, and no modelled operation reads them.
- `updateAudioElements`, whose body is empty, and `setStartedTime` / `setStartedTimePlay`, which are inlined into `SetPlaying`.
- `console.log` calls.
- The text a text handler writes is taken to be a string. The source reads `target?.text`, which would be undefined only without an event target.
- The browser's own clamping of `video.currentTime`, and the promise `video.play()` returns. The model records the position and play state the store requests.
- `getUID` and `isHtmlVideoElement` come from a utilities file that is not part of this model. `getUID` is taken to return a fresh id, and `isHtmlVideoElement` to mean "the node is a video".
- The element interfaces file is not part of this model either. Element properties are reconstructed from their uses in the store.
- Floating-point arithmetic. All times and scales are exact reals, so rounding in `floor(t / 1000 * fps)` and in the scale divisions is not modelled, nor is NaN in JavaScript truthiness.
- Transform.CommitImage: requires a nonzero fit scale. The source divides by it regardless; a zero fit scale gives a floating-point infinity, which reals cannot represent.
- Transform.FitScale: requires a nonzero natural image size, for the same reason.
- The export button, which seeks, deselects and then starts playback and a `saveVideo` the store does not define. Recording and transcoding are not part of this model.
- UI components: the seek bar, the timeline layout, the canvas render loop and its deselect on empty click, and the text, image and video panels.
- The menu store, which is a persisted setter, and the build configuration.
