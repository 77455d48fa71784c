/**
 * The frame-quantized playback clock of the editor store: the position is kept
 * as a whole frame number, converted from and to milliseconds, and while
 * playing every tick recomputes it from the wall-clock time elapsed since
 * playback started.
 */
module Playback {

  type FrameRate = n: int | 0 < n witness 60

  /** `setCurrentTimeInMs`: the frame that contains millisecond `t`. */
  function FrameOf(t: real, fps: FrameRate): (r: int) {
    (t / 1000.0 * fps as real).Floor
  }

  /** `getCurrentTimeframe`: the millisecond at which frame `k` starts. */
  function TimeOfFrame(k: int, fps: FrameRate): (r: real) {
    k as real * 1000.0 / fps as real
  }

  function FrameDuration(fps: FrameRate): (r: real) {
    1000.0 / fps as real
  }

  /** `t` lies in the frame `FrameOf(t)`: at or after its start and before the next one's. */
  lemma {:induction false} QuantizationBounds(t: real, fps: FrameRate)
    ensures TimeOfFrame(FrameOf(t, fps), fps) <= t < TimeOfFrame(FrameOf(t, fps), fps) + FrameDuration(fps)
  {
    var f := fps as real;
    var x := t / 1000.0 * f;
    var k := FrameOf(t, fps);
    var q := 1000.0 / f;
    assert k as real <= x < k as real + 1.0;
    assert q > 0.0;
    assert x * q == t;
    assert TimeOfFrame(k, fps) == k as real * q;
    assert (x - k as real) * q >= 0.0;
    assert (k as real + 1.0 - x) * q > 0.0;
  }

  /** Converting a frame to milliseconds and back gives the same frame. */
  lemma {:induction false} FrameOfTimeOfFrame(k: int, fps: FrameRate)
    ensures FrameOf(TimeOfFrame(k, fps), fps) == k
  {
    var f := fps as real;
    assert TimeOfFrame(k, fps) / 1000.0 * f == k as real;
  }

  /** The store fields that make up the clock. */
  datatype ClockState = ClockState(
    currentKeyFrame: int,
    fps: FrameRate,
    playing: bool,
    startedTime: real,
    startedTimePlay: real,
    maxTime: real)

  function CurrentTime(c: ClockState): (r: real) {
    TimeOfFrame(c.currentKeyFrame, c.fps)
  }

  function ClockSetTime(c: ClockState, t: real): (r: ClockState) {
    c.(currentKeyFrame := FrameOf(t, c.fps))
  }

  /** Setting the clock to `t` moves it to the frame containing `t`. */
  lemma ClockSetTimeQuantizes(c: ClockState, t: real)
    ensures CurrentTime(ClockSetTime(c, t)) <= t < CurrentTime(ClockSetTime(c, t)) + FrameDuration(c.fps)
  {
    QuantizationBounds(t, c.fps);
  }

  /** Setting the clock to the time it shows changes nothing. */
  lemma ClockSetTimeFixedPoint(c: ClockState)
    ensures ClockSetTime(c, CurrentTime(c)) == c
  {
    FrameOfTimeOfFrame(c.currentKeyFrame, c.fps);
  }

  /**
   * `setPlaying`: the flag, and on start the wall-clock and timeline anchors.
   * The shown time does not move, and a tick at the starting instant computes
   * exactly the time shown.
   */
  function ClockSetPlaying(c: ClockState, isPlayed: bool, now: real): (r: ClockState)
    ensures r.playing == isPlayed && CurrentTime(r) == CurrentTime(c)
    ensures r.fps == c.fps && r.maxTime == c.maxTime
    ensures isPlayed ==> TickTime(r, now) == CurrentTime(c)
  {
    if isPlayed then c.(playing := true, startedTime := now, startedTimePlay := CurrentTime(c))
    else c.(playing := false)
  }

  /** The timeline position a tick at wall-clock time `now` computes. */
  function TickTime(c: ClockState, now: real): (r: real) {
    c.startedTimePlay + (now - c.startedTime)
  }

  /** `playFrames`' effect on the clock. */
  function ClockTick(c: ClockState, now: real): (r: ClockState) {
    if !c.playing then c
    else if TickTime(c, now) > c.maxTime then
      ClockSetPlaying(ClockSetTime(ClockSetTime(c, TickTime(c, now)), 0.0), false, now)
    else ClockSetTime(c, TickTime(c, now))
  }

  /** `handleSeek`' effect on the clock. */
  function ClockSeek(c: ClockState, s: real): (r: ClockState) {
    ClockSetTime(if c.playing then ClockSetPlaying(c, false, 0.0) else c, s)
  }

  /**
   * A tick stops playback and rewinds to frame 0 exactly when its time passes
   * `maxTime`; otherwise the clock keeps playing at the frame of that time.
   * Nothing but the frame and the flag changes; a paused clock does not move.
   */
  lemma ClockTickOutcome(c: ClockState, now: real)
    ensures var r := ClockTick(c, now);
      && r.fps == c.fps && r.maxTime == c.maxTime
      && r.startedTime == c.startedTime && r.startedTimePlay == c.startedTimePlay
      && (!c.playing ==> r == c)
      && (c.playing && TickTime(c, now) > c.maxTime ==> !r.playing && r.currentKeyFrame == 0)
      && (c.playing && TickTime(c, now) <= c.maxTime ==>
            r.playing && r.currentKeyFrame == FrameOf(TickTime(c, now), c.fps))
  {
  }

  /**
   * Starting playback and ticking `e` milliseconds later shows the frame of the
   * time shown at the start plus `e`, provided that stays within `maxTime`.
   */
  lemma PlayThenTick(c: ClockState, now: real, e: real)
    requires CurrentTime(c) + e <= c.maxTime
    ensures ClockTick(ClockSetPlaying(c, true, now), now + e).currentKeyFrame == FrameOf(CurrentTime(c) + e, c.fps)
    ensures ClockTick(ClockSetPlaying(c, true, now), now + e).playing
  {
  }

  /** Resuming and ticking at the same instant does not move the clock. */
  lemma PlayDoesNotJump(c: ClockState, now: real)
    requires CurrentTime(c) <= c.maxTime
    ensures ClockTick(ClockSetPlaying(c, true, now), now) == ClockSetPlaying(c, true, now)
  {
    FrameOfTimeOfFrame(c.currentKeyFrame, c.fps);
  }

  /** The clock after a run of ticks at wall-clock times `nows`, in order. */
  function ClockTicks(c: ClockState, nows: seq<real>): (r: ClockState)
    decreases |nows|
  {
    if nows == [] then c else ClockTick(ClockTicks(c, nows[..|nows| - 1]), nows[|nows| - 1])
  }

  /**
   * Drift freedom: however irregularly the ticks arrive, as long as none passes
   * `maxTime` the clock after the last one is what a single tick at that
   * instant gives.
   */
  lemma {:induction false} ClockTicksDriftFree(c: ClockState, nows: seq<real>)
    requires c.playing && nows != []
    requires forall i :: 0 <= i < |nows| ==> TickTime(c, nows[i]) <= c.maxTime
    ensures ClockTicks(c, nows) == ClockTick(c, nows[|nows| - 1])
  {
    var init := nows[..|nows| - 1];
    if init != [] {
      ClockTicksDriftFree(c, init);
      assert init[|init| - 1] == nows[|nows| - 2];
    }
  }

  /** `handleSeek` always pauses and moves to the frame of the seek time, unclamped. */
  lemma ClockSeekPausesAndMoves(c: ClockState, s: real)
    ensures !ClockSeek(c, s).playing
    ensures ClockSeek(c, s).currentKeyFrame == FrameOf(s, c.fps)
    ensures CurrentTime(ClockSeek(c, s)) <= s < CurrentTime(ClockSeek(c, s)) + FrameDuration(c.fps)
  {
    QuantizationBounds(s, c.fps);
  }

  /** A seek past the end of a 30-second timeline at 60 frames per second is not clamped. */
  lemma SeekPastEndIsNotClamped(c: ClockState)
    requires c.fps == 60 && c.maxTime == 30000.0
    ensures ClockSeek(c, 35000.0).currentKeyFrame == 2100
    ensures CurrentTime(ClockSeek(c, 35000.0)) == 35000.0
  {
  }
}
