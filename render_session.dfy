/** The recording session of generateVideo once the illustrations and the
    music are loaded: the `render` tick driven by `requestAnimationFrame`,
    the recorder's `ondataavailable`, `onstop` and `onerror` handlers, and
    the promise they settle. Everything the session does to the outside
    world (drawing, progress messages, the recorder, the audio context, the
    download) is an `Effect` appended to its log. */
module Render {
  import opened Wrappers
  import opened Canvas
  import opened Story
  import opened Timeline
  import opened Compositor
  import opened Progress
  import opened Chunks
  import opened Seqs

  /** `recorder.state`, as far as the session looks at it. */
  datatype RecorderState = Inactive | Recording

  /** The promise returned by generateVideo. */
  datatype Outcome = Pending | Resolved | Rejected(reason: string)

  /** The messages passed to `onProgress`. */
  datatype ProgressMessage =
    | Initializing
    | LoadingIllustrations
    | LoadingMusic
    | Encoding(second: nat, totalSeconds: nat)
    | Finalizing
    | VideoReady

  datatype Effect =
    | Report(message: ProgressMessage)
    /** The drawing calls of one frame on the recorded canvas. */
    | Drew(frame: seq<Command>)
    | StartRecorder
    | StartAudio
    | StopRecorder
    /** `requestAnimationFrame(render)`. */
    | RequestFrame
    | CancelFrame
    | CloseAudio
    /** The object-URL download of the recorded video. */
    | Download(fileName: string, mimeType: string, data: Blob)

  const VideoFileName: string := "bedtime-story.webm"
  const VideoMimeType: string := "video/webm"

  /** The seconds of the "Encoding" messages among the first `n` effects of
      a log, in order. */
  function ReportsUpTo(log: seq<Effect>, n: nat): seq<nat>
    requires n <= |log|
  {
    if n == 0 then []
    else
      var e := log[n - 1];
      ReportsUpTo(log, n - 1) + (if e.Report? && e.message.Encoding? then [e.message.second] else [])
  }

  /** The seconds of the "Encoding" messages in a log, in order. */
  function Reports(log: seq<Effect>): seq<nat>
  {
    ReportsUpTo(log, |log|)
  }

  /** The reports among the first `n` effects of `a + b` with `n` past `a`
      are those of `a` followed by those among the first `n - |a|` of `b`. */
  lemma {:induction false} ReportsUpToAppend(a: seq<Effect>, b: seq<Effect>, n: nat)
    requires |a| <= n <= |a| + |b|
    ensures ReportsUpTo(a + b, n) == Reports(a) + ReportsUpTo(b, n - |a|)
  {
    if n == |a| {
      ReportsUpToPrefix(a, a + b, |a|);
    } else {
      ReportsUpToAppend(a, b, n - 1);
      assert (a + b)[n - 1] == b[n - 1 - |a|];
    }
  }

  /** The reports among the first `n` effects depend on those effects alone. */
  lemma {:induction false} ReportsUpToPrefix(s: seq<Effect>, t: seq<Effect>, n: nat)
    requires n <= |s| && n <= |t|
    requires forall i :: 0 <= i < n ==> s[i] == t[i]
    ensures ReportsUpTo(s, n) == ReportsUpTo(t, n)
  {
    if n > 0 {
      ReportsUpToPrefix(s, t, n - 1);
    }
  }

  lemma ReportsAppend(a: seq<Effect>, b: seq<Effect>)
    ensures Reports(a + b) == Reports(a) + Reports(b)
  {
    ReportsUpToAppend(a, b, |a| + |b|);
  }

  /** A log without "Encoding" messages reports nothing. */
  lemma ReportsNone(log: seq<Effect>)
    requires forall i :: 0 <= i < |log| ==> !(log[i].Report? && log[i].message.Encoding?)
    ensures Reports(log) == []
  {
    ReportsNoneUpTo(log, |log|);
  }

  lemma {:induction false} ReportsNoneUpTo(log: seq<Effect>, n: nat)
    requires n <= |log|
    requires forall i :: 0 <= i < |log| ==> !(log[i].Report? && log[i].message.Encoding?)
    ensures ReportsUpTo(log, n) == []
  {
    if n > 0 {
      ReportsNoneUpTo(log, n - 1);
    }
  }

  /** Every "Encoding" message of the log has `total` as its denominator. */
  predicate EncodingTotals(log: seq<Effect>, total: nat)
  {
    forall i :: 0 <= i < |log| && log[i].Report? && log[i].message.Encoding? ==>
      log[i].message.totalSeconds == total
  }

  /** The denominator of the "Encoding" messages is ten seconds per page. */
  lemma TotalSecondsOfTimeline(pageCount: nat)
    ensures TotalSeconds(TotalDuration(pageCount)) == 10 * pageCount
  {
  }

  /** The frame a tick `elapsed` ms after the start draws: the one of the
      page and the offset into it that the timeline places `elapsed` at. */
  function FrameAt(pages: seq<StoryPage>, images: seq<ImageSize>, width: string -> real, elapsed: nat)
    : seq<Command>
    requires ImagesReady(pages, images) && elapsed < TotalDuration(|pages|)
  {
    var pos := Locate(elapsed, |pages|);
    FrameCommands(pages, images, width, pos.pageIndex, pos.timeIntoPage)
  }

  /** What one `render` tick at `elapsed` logs, given the number of pages,
      `lastProgressSecond`, the recorder's state and the frame it draws. */
  function TickEffects(pageCount: nat, elapsed: nat, lastSecond: int, recorder: RecorderState,
                       frame: seq<Command>): seq<Effect>
  {
    if elapsed >= TotalDuration(pageCount) then
      if recorder == Recording then [StopRecorder] else []
    else
      var second := Second(elapsed);
      [Drew(frame)]
      + (if second > lastSecond then [Report(Encoding(second, TotalSeconds(TotalDuration(pageCount))))] else [])
      + [RequestFrame]
  }

  /** A tick at or past the end of the timeline draws nothing, schedules no
      further frame, and stops the recorder exactly when it is recording. */
  lemma EndTickStops(pageCount: nat, elapsed: nat, lastSecond: int, recorder: RecorderState, frame: seq<Command>)
    requires elapsed >= TotalDuration(pageCount)
    ensures var effects := TickEffects(pageCount, elapsed, lastSecond, recorder, frame);
      && (forall i :: 0 <= i < |effects| ==> !effects[i].Drew? && effects[i] != RequestFrame)
      && (StopRecorder in effects <==> recorder == Recording)
      && Reports(effects) == []
  {
    var effects := TickEffects(pageCount, elapsed, lastSecond, recorder, frame);
    ReportsNone(effects);
  }

  /** A tick before the end draws its frame first, never stops the
      recorder, and schedules the next frame exactly once, as its last
      effect; it reports its second exactly when that second is later than
      `lastProgressSecond`, with the video length in whole seconds as the
      denominator. */
  lemma DrawTickReschedules(pageCount: nat, elapsed: nat, lastSecond: int, recorder: RecorderState,
                            frame: seq<Command>)
    requires elapsed < TotalDuration(pageCount)
    ensures var effects := TickEffects(pageCount, elapsed, lastSecond, recorder, frame);
      && |effects| >= 2
      && effects[0] == Drew(frame)
      && (forall i :: 0 <= i < |effects| ==> (effects[i] == RequestFrame <==> i == |effects| - 1))
      && StopRecorder !in effects
      && Reports(effects) == (if Second(elapsed) > lastSecond then [Second(elapsed)] else [])
      && EncodingTotals(effects, TotalSeconds(TotalDuration(pageCount)))
  {
    var effects := TickEffects(pageCount, elapsed, lastSecond, recorder, frame);
    var draw := [Drew(frame)];
    var progress := if Second(elapsed) > lastSecond
                    then [Report(Encoding(Second(elapsed), TotalSeconds(TotalDuration(pageCount))))]
                    else [];
    assert effects == draw + progress + [RequestFrame];
    FrameReports(frame, Second(elapsed), TotalSeconds(TotalDuration(pageCount)), Second(elapsed) > lastSecond);
  }

  /** The effects of a drawn frame report its second exactly when it carries
      a progress message. */
  lemma FrameReports(frame: seq<Command>, second: nat, total: nat, report: bool)
    ensures var progress := if report then [Report(Encoding(second, total))] else [];
      Reports([Drew(frame)] + progress + [RequestFrame]) == if report then [second] else []
  {
    var progress := if report then [Report(Encoding(second, total))] else [];
    var effects := [Drew(frame)] + progress + [RequestFrame];
    assert ReportsUpTo(effects, 1) == [];
    if report {
      assert ReportsUpTo(effects, 2) == [second];
    }
  }

  /** `if (!startTime) startTime = timestamp`: a missing start time, or one
      of 0, is replaced by the tick's timestamp. */
  function Restart(startTime: Option<int>, timestamp: int): int
  {
    if startTime.None? || startTime.value == 0 then timestamp else startTime.value
  }

  /** The clock part of the session's invariant: the start time is set once
      a frame was drawn, frames are drawn at non-decreasing elapsed times
      that the latest timestamp has reached, the first one at 0; and a frame
      is pending after the start only once one was drawn. */
  ghost predicate ClockValid(startTime: Option<int>, lastTimestamp: int, drawn: seq<nat>, frameRequested: bool)
  {
    match startTime
    case None => lastTimestamp >= 0 && drawn == []
    case Some(start) =>
      && 0 <= start <= lastTimestamp
      && (start == 0 ==> lastTimestamp == 0)
      && (drawn != [] ==> drawn[|drawn| - 1] + start <= lastTimestamp && drawn[0] == 0)
      && (drawn == [] ==> !frameRequested)
      && Sorted(drawn)
  }

  /** A tick on a pending frame keeps the clock consistent, whether it draws
      at its elapsed time or ends the recording. */
  lemma ClockTick(startTime: Option<int>, lastTimestamp: int, drawn: seq<nat>, timestamp: int)
    requires ClockValid(startTime, lastTimestamp, drawn, true) && timestamp >= lastTimestamp
    ensures var start := Restart(startTime, timestamp);
      var elapsed := timestamp - start;
      && elapsed >= 0
      && ClockValid(Some(start), timestamp, drawn + [elapsed], true)
      && ClockValid(Some(start), timestamp, drawn, false)
  {
    var start := Restart(startTime, timestamp);
    var elapsed := timestamp - start;
    SortedSnoc(drawn, elapsed);
    if drawn == [] {
      assert elapsed == 0;
    } else {
      assert drawn[|drawn| - 1] <= elapsed;
    }
  }

  /** The progress part of the session's invariant: the log's "Encoding"
      seconds and `lastProgressSecond` are what the throttle made of the
      frames drawn, and every "Encoding" message has `total` seconds as its
      denominator. */
  ghost predicate ThrottleValid(log: seq<Effect>, throttle: Throttle, lastSecond: int, total: nat)
  {
    match throttle
    case Throttle(reported, last) =>
      Reports(log) == reported && lastSecond == last && EncodingTotals(log, total)
  }

  /** Drawing a frame at `elapsed` and reporting its second exactly when it
      is later than `lastSecond` keeps the throttle consistent. */
  lemma ThrottleDraw(log: seq<Effect>, drawn: seq<nat>, lastSecond: int, total: nat,
                     elapsed: nat, frame: seq<Command>)
    requires ThrottleValid(log, After(drawn), lastSecond, total)
    ensures var second := Second(elapsed);
      var progress := if second > lastSecond then [Report(Encoding(second, total))] else [];
      ThrottleValid(log + ([Drew(frame)] + progress + [RequestFrame]), After(drawn + [elapsed]),
                    if second > lastSecond then second else lastSecond, total)
  {
    var second := Second(elapsed);
    var progress := if second > lastSecond then [Report(Encoding(second, total))] else [];
    var draw := [Drew(frame)];
    var effects := draw + progress + [RequestFrame];
    AfterSnoc(drawn, elapsed);
    ReportsAppend(log, effects);
    FrameReports(frame, second, total, second > lastSecond);
    forall i | 0 <= i < |log + effects| && (log + effects)[i].Report? && (log + effects)[i].message.Encoding?
      ensures (log + effects)[i].message.totalSeconds == total
    {
      if i < |log| {
        assert (log + effects)[i] == log[i];
      }
    }
  }

  /** Effects without "Encoding" messages leave the throttle as it was. */
  lemma ThrottleQuiet(log: seq<Effect>, drawn: seq<nat>, lastSecond: int, total: nat, effects: seq<Effect>)
    requires ThrottleValid(log, After(drawn), lastSecond, total)
    requires forall i :: 0 <= i < |effects| ==> !(effects[i].Report? && effects[i].message.Encoding?)
    ensures ThrottleValid(log + effects, After(drawn), lastSecond, total)
  {
    ReportsNone(effects);
    ReportsAppend(log, effects);
    forall i | 0 <= i < |log + effects| && (log + effects)[i].Report? && (log + effects)[i].message.Encoding?
      ensures (log + effects)[i].message.totalSeconds == total
    {
      if i < |log| {
        assert (log + effects)[i] == log[i];
      } else {
        assert false;
      }
    }
  }

  class RenderSession {
    const pages: seq<StoryPage>
    const images: seq<ImageSize>
    /** `ctx.measureText(..).width` in the caption font. */
    const textWidth: string -> real

    /** `startTime`; None is `null`. */
    var startTime: Option<int>
    var lastProgressSecond: int
    var recorder: RecorderState
    /** A `requestAnimationFrame` callback is pending. */
    var frameRequested: bool
    var chunks: seq<Blob>
    /** The drawing calls of the picture now on the recorded canvas. */
    var canvas: seq<Command>
    var log: seq<Effect>
    var outcome: Outcome

    /** The timestamp of the latest tick. */
    ghost var lastTimestamp: int
    /** Every blob the recorder delivered, empty ones included. */
    ghost var delivered: seq<Blob>
    /** The elapsed time of every frame drawn so far. */
    ghost var drawn: seq<nat>

    ghost predicate Valid()
      reads this
    {
      && ImagesReady(pages, images)
      && chunks == NonEmpty(delivered)
      && ClockValid(startTime, lastTimestamp, drawn, frameRequested)
      && ThrottleValid(log, After(drawn), lastProgressSecond, TotalSeconds(TotalDuration(|pages|)))
    }

    /** From the first progress message to the first requested frame, with
        the images and the music already loaded. */
    constructor (pages: seq<StoryPage>, images: seq<ImageSize>, textWidth: string -> real)
      requires ImagesReady(pages, images)
      ensures Valid()
      ensures this.pages == pages && this.images == images && this.textWidth == textWidth
      ensures log == [Report(Initializing), Report(LoadingIllustrations), Report(LoadingMusic),
                      StartRecorder, StartAudio, RequestFrame]
      ensures startTime == None && lastProgressSecond == -1
      ensures lastTimestamp == 0 && drawn == [] && delivered == []
      ensures recorder == Recording && frameRequested && chunks == [] && canvas == [] && outcome == Pending
    {
      this.pages := pages;
      this.images := images;
      this.textWidth := textWidth;
      startTime := None;
      lastProgressSecond := -1;
      recorder := Recording;
      frameRequested := true;
      chunks := [];
      canvas := [];
      log := [Report(Initializing), Report(LoadingIllustrations), Report(LoadingMusic),
              StartRecorder, StartAudio, RequestFrame];
      outcome := Pending;
      lastTimestamp := 0;
      delivered := [];
      drawn := [];
      new;
      ReportsNone(log);
    }

    /** The `render` callback at `timestamp`. A start time of 0 is falsy and
        is captured again. Before the end the tick draws the frame of its
        elapsed time and logs it, its progress and the next frame request;
        at the end it stops the recorder if it is recording and leaves the
        canvas as it was. */
    method Tick(timestamp: int)
      requires Valid() && frameRequested && timestamp >= lastTimestamp
      modifies this
      ensures Valid()
      ensures startTime == Some(Restart(old(startTime), timestamp)) && lastTimestamp == timestamp
      ensures timestamp - startTime.value >= 0
      ensures var elapsed := timestamp - startTime.value;
        elapsed < TotalDuration(|pages|) ==>
          && canvas == FrameAt(pages, images, textWidth, elapsed)
          && log == old(log) + TickEffects(|pages|, elapsed, old(lastProgressSecond), old(recorder), canvas)
          && frameRequested && recorder == old(recorder)
          && lastProgressSecond == (if Second(elapsed) > old(lastProgressSecond) then Second(elapsed)
                                    else old(lastProgressSecond))
          && drawn == old(drawn) + [elapsed]
      ensures var elapsed := timestamp - startTime.value;
        elapsed >= TotalDuration(|pages|) ==>
          && canvas == old(canvas)
          && log == old(log) + TickEffects(|pages|, elapsed, old(lastProgressSecond), old(recorder), canvas)
          && !frameRequested && recorder == Inactive
          && lastProgressSecond == old(lastProgressSecond) && drawn == old(drawn)
      ensures chunks == old(chunks) && delivered == old(delivered) && outcome == old(outcome)
    {
      var start := Restart(startTime, timestamp);
      var elapsed := timestamp - start;
      if elapsed >= TotalDuration(|pages|) {
        StopAtEnd(timestamp, start);
        return;
      }
      var pageIndex := elapsed / PageDurationMs;
      var timeIntoPage := elapsed % PageDurationMs;
      var frame := DrawFrame(pages, images, textWidth, pageIndex, timeIntoPage);
      RecordFrame(timestamp, start, elapsed, frame);
    }

    /** A tick at or past the end: the recorder is stopped if it is
        recording, and no frame is drawn or requested. */
    method StopAtEnd(timestamp: int, start: int)
      requires Valid() && frameRequested && timestamp >= lastTimestamp
      requires start == Restart(startTime, timestamp) && timestamp - start >= TotalDuration(|pages|)
      modifies this
      ensures Valid()
      ensures startTime == Some(start) && lastTimestamp == timestamp && canvas == old(canvas)
      ensures log == old(log) + TickEffects(|pages|, timestamp - start, old(lastProgressSecond), old(recorder), canvas)
      ensures !frameRequested && recorder == Inactive
      ensures lastProgressSecond == old(lastProgressSecond) && drawn == old(drawn)
      ensures chunks == old(chunks) && delivered == old(delivered) && outcome == old(outcome)
    {
      ClockTick(startTime, lastTimestamp, drawn, timestamp);
      var stop := if recorder == Recording then [StopRecorder] else [];
      ThrottleQuiet(log, drawn, lastProgressSecond, TotalSeconds(TotalDuration(|pages|)), stop);
      log := log + stop;
      recorder := Inactive;
      startTime := Some(start);
      lastTimestamp := timestamp;
      frameRequested := false;
    }

    /** The rest of a tick that drew `frame` at `elapsed`: the picture stays
        on the canvas, the second is reported when it is later than
        `lastProgressSecond`, and the next frame is requested. */
    method RecordFrame(timestamp: int, start: int, elapsed: nat, frame: seq<Command>)
      requires Valid() && frameRequested && timestamp >= lastTimestamp
      requires start == Restart(startTime, timestamp) && elapsed == timestamp - start
      requires elapsed < TotalDuration(|pages|)
      modifies this
      ensures Valid()
      ensures startTime == Some(start) && lastTimestamp == timestamp && canvas == frame
      ensures log == old(log) + TickEffects(|pages|, elapsed, old(lastProgressSecond), old(recorder), frame)
      ensures frameRequested && recorder == old(recorder)
      ensures lastProgressSecond == if Second(elapsed) > old(lastProgressSecond) then Second(elapsed)
                                    else old(lastProgressSecond)
      ensures drawn == old(drawn) + [elapsed]
      ensures chunks == old(chunks) && delivered == old(delivered) && outcome == old(outcome)
    {
      ClockTick(startTime, lastTimestamp, drawn, timestamp);
      var totalSeconds := TotalSeconds(TotalDuration(|pages|));
      ThrottleDraw(log, drawn, lastProgressSecond, totalSeconds, elapsed, frame);
      var progress := [];
      var currentSecond := elapsed / 1000;
      var lastSecond := lastProgressSecond;
      if currentSecond > lastProgressSecond {
        progress := [Report(Encoding(currentSecond, totalSeconds))];
        lastSecond := currentSecond;
      }
      canvas := frame;
      log := log + ([Drew(frame)] + progress + [RequestFrame]);
      lastProgressSecond := lastSecond;
      drawn := drawn + [elapsed];
      startTime := Some(start);
      lastTimestamp := timestamp;
      frameRequested := true;
    }

    /** `ondataavailable`: the blob is kept only when it is non-empty. */
    method OnDataAvailable(data: Blob)
      requires Valid()
      modifies this
      ensures Valid()
      ensures chunks == if |data| > 0 then old(chunks) + [data] else old(chunks)
      ensures delivered == old(delivered) + [data]
      ensures log == old(log) && recorder == old(recorder) && frameRequested == old(frameRequested)
      ensures canvas == old(canvas)
      ensures startTime == old(startTime) && lastProgressSecond == old(lastProgressSecond)
      ensures outcome == old(outcome) && drawn == old(drawn) && lastTimestamp == old(lastTimestamp)
    {
      NonEmptySnoc(delivered, data);
      if |data| > 0 {
        chunks := chunks + [data];
      }
      delivered := delivered + [data];
    }

    /** `onstop`: the download of every recorded byte, the final progress
        messages and the cleanup; the promise resolves unless it has
        already settled. */
    method OnStop()
      requires Valid()
      modifies this
      ensures Valid()
      ensures log == old(log) + [Report(Finalizing), Download(VideoFileName, VideoMimeType, Flatten(chunks)),
                                 Report(VideoReady), CancelFrame, CloseAudio]
      ensures Flatten(chunks) == Flatten(delivered)
      ensures !frameRequested
      ensures outcome == if old(outcome).Pending? then Resolved else old(outcome)
      ensures chunks == old(chunks) && delivered == old(delivered) && recorder == old(recorder)
      ensures canvas == old(canvas)
      ensures startTime == old(startTime) && lastProgressSecond == old(lastProgressSecond)
      ensures drawn == old(drawn) && lastTimestamp == old(lastTimestamp)
    {
      var cleanup := [Report(Finalizing), Download(VideoFileName, VideoMimeType, Flatten(chunks)),
                      Report(VideoReady), CancelFrame, CloseAudio];
      ThrottleQuiet(log, drawn, lastProgressSecond, TotalSeconds(TotalDuration(|pages|)), cleanup);
      NonEmptyKeepsBytes(delivered, |delivered|);
      assert delivered[..|delivered|] == delivered;
      log := log + cleanup;
      frameRequested := false;
      if outcome.Pending? {
        outcome := Resolved;
      }
    }

    /** `onerror`: the pending frame is cancelled and the audio closed; the
        promise is rejected unless it has already settled. The recorder is
        no longer recording after an error. */
    method OnError(error: string)
      requires Valid()
      modifies this
      ensures Valid()
      ensures log == old(log) + [CancelFrame, CloseAudio]
      ensures !frameRequested && recorder == Inactive
      ensures outcome == if old(outcome).Pending? then Rejected("MediaRecorder error: " + error) else old(outcome)
      ensures chunks == old(chunks) && delivered == old(delivered) && canvas == old(canvas)
      ensures startTime == old(startTime) && lastProgressSecond == old(lastProgressSecond)
      ensures drawn == old(drawn) && lastTimestamp == old(lastTimestamp)
    {
      var cleanup := [CancelFrame, CloseAudio];
      ThrottleQuiet(log, drawn, lastProgressSecond, TotalSeconds(TotalDuration(|pages|)), cleanup);
      log := log + cleanup;
      frameRequested := false;
      recorder := Inactive;
      if outcome.Pending? {
        outcome := Rejected("MediaRecorder error: " + error);
      }
    }

    /** In every reachable state the "Encoding" messages so far report
        strictly increasing seconds, at most one per second, starting with
        0s; every second in which a frame was drawn is reported; and
        `lastProgressSecond` is the second of the latest frame, or -1. */
    lemma ProgressReports()
      requires Valid()
      ensures Increasing(Reports(log))
      ensures Reports(log) != [] ==> Reports(log)[0] == 0
      ensures forall s :: s in Seconds(drawn) ==> s in Reports(log)
      ensures lastProgressSecond == if drawn == [] then -1 else Second(drawn[|drawn| - 1])
    {
      AfterShape(drawn, |drawn|);
      SortedAfterReportsAll(drawn, |drawn|);
      if drawn != [] {
        FirstReport(drawn, |drawn|);
      }
      forall s | s in Seconds(drawn) ensures s in Reports(log) {
        var i :| 0 <= i < |drawn| && s == Second(drawn[i]);
      }
    }
  }
}
