# Slideshow-to-video renderer, modelled in Dafny

This project models the offline video renderer of the bedtime-story app
(`utils/videoGenerator.ts`) and proves what the renderer guarantees. The
renderer turns the story pages into a 1920x1080 slideshow video:

- every page is on screen for 10 seconds;
- the next page's illustration fades in over the last 1.5 seconds of every
  page but the last;
- the caption sits in a translucent band along the bottom quarter of the
  canvas, wrapped greedily to the canvas width minus 40 px;
- the caption fades in, fades out, and is skipped at opacity 0.01 or less;
- a `requestAnimationFrame` tick draws the frame for the elapsed time;
- the tick reports "Encoding" progress at most once per whole second;
- at the end of the timeline the tick stops the recorder if it is still
  recording;
- the recorder's handlers keep the non-empty data chunks, download the video
  on stop, and clean up on stop or on error.

The model has these modules:

- **Timeline** (`timeline.dfy`): the page constants, `Locate` (page and time
  into the page), `CrossfadeAlpha` and `TextOpacity`, all on integer
  milliseconds.
- **Geometry** (`geometry.dfy`): `Letterbox`, the rectangle of
  `drawImageWithLetterbox`.
- **TextLayout** (`text_layout.dfy`): `split(' ')`, `trim()` and `wrapText`.
  The specification functions are `Split`, `WrapLines` (the greedy breaker
  `Greedy`) and `TextCommands`. The loops of `wrapText` are the methods
  `BreakLines` and `PlaceLines`, proved against those functions.
- **Compositor** (`compositor.dfy`): the drawing calls of `drawTextOverlay`
  and of one rendered frame, as a list of `Canvas.Command` values.
- **Progress** (`progress.dfy`): the `lastProgressSecond` throttle, as a
  fold (`After`) over the elapsed times of the frames drawn.
- **Chunks** (`chunks.dfy`): the chunk filter of `ondataavailable`.
- **Render** (`render_session.dfy`): the class `RenderSession`, whose fields
  are the closure state of `generateVideo` once loading is done. These are
  `startTime`, `lastProgressSecond`, the recorder state, the pending frame,
  `chunks`, the canvas contents, the promise outcome, and a log of every
  effect on the outside world. Its methods are the `render` tick (`Tick`)
  and the recorder handlers, and `Valid()` is its invariant. Three ghost
  fields are kept only for the proofs: the latest timestamp, every blob ever
  delivered, and the elapsed time of every frame drawn.

Time is integer milliseconds. Opacities, alphas and geometry are reals.
`ctx.measureText(..).width` is a parameter `width: string -> real` with no
assumed properties.

## Model

| member | source | states |
|---|---|---|
| Timeline.Locate | utils/videoGenerator.ts:168-178 | `End` exactly when elapsed reaches pages.length * 10000; otherwise a page index below the page count and a time into the page below 10000 ms whose combination `pageIndex * 10000 + timeIntoPage` is the elapsed time. |
| Timeline.LocateUnique | utils/videoGenerator.ts:177-178 | Any page below the page count and any offset below 10000 ms that add up to the elapsed time are the ones located: every instant before the end belongs to exactly one page. |
| Timeline.PageStartBelongsToPage | utils/videoGenerator.ts:177-178 | The instant k * 10000 belongs to page k at time 0, not to page k - 1. |
| Timeline.CrossfadeAlpha | utils/videoGenerator.ts:186-194 | The next image is drawn exactly when the time into the page is past 8500 ms and the page is not the last. Its alpha times 1500 is the time past 8500 ms, and the alpha lies strictly between 0 and 1. |
| Timeline.CrossfadeIncreasing | utils/videoGenerator.ts:190-194 | Within a crossfade the alpha grows strictly with the time into the page. |
| Timeline.TextOpacity | utils/videoGenerator.ts:186-207 | The caption opacity lies in [0, 1]. It is 1 minus the crossfade alpha in a crossfade, t/500 before 500 ms, and 1 from 500 ms on for the last page. |
| Timeline.TextPlateauAndFadeOut | utils/videoGenerator.ts:201-206 | The opacity is 1 from 500 ms to 8000 ms. Before a following page it falls linearly, `(8500 - t)/500`, from 8000 ms to 8500 ms. |
| Timeline.CaptionJumpAtTransition | utils/videoGenerator.ts:199-205 | Before a following page, the opacity is 0 at 8500 ms and 1499/1500 at 8501 ms. |
| Timeline.CaptionVisibility | utils/videoGenerator.ts:187-210 | On whole milliseconds and with exact reals, together with the 0.01 cutoff, the caption is drawn exactly in 6–8494 ms and 8501–9984 ms before a following page, and from 6 ms on for the last page. |
| Geometry.Letterbox | utils/videoGenerator.ts:37-52 | For positive sizes the rectangle lies inside the canvas and is centred (`2x + w == W`, `2y + h == H`). It keeps the image's aspect ratio. It fills the width when the image is wider than the canvas, and the height otherwise. |
| TextLayout.ScanUpTo | utils/videoGenerator.ts:10 | No word the left-to-right scan of `split(' ')` produces holds a space. |
| TextLayout.Split | utils/videoGenerator.ts:10 | `split(' ')` gives at least one word, and no word holds a space. |
| TextLayout.JoinSplit | utils/videoGenerator.ts:10 | Joining the words of `s` with single spaces gives `s` back: nothing is lost or reordered. |
| TextLayout.SplitJoin | utils/videoGenerator.ts:10 | Splitting words joined by single spaces gives the words back, when no word holds a space. |
| TextLayout.GreedyShape | utils/videoGenerator.ts:14-24 | During the word loop the current line is empty only before the first word, and no pushed line is empty. |
| TextLayout.GreedyKeepsWords | utils/videoGenerator.ts:14-24 | After n iterations the pushed lines and the current line hold exactly the first n words, in order. |
| TextLayout.GreedyFits | utils/videoGenerator.ts:14-24 | Every line formed so far either measures at most maxWidth or holds a single word. |
| TextLayout.GreedyMaximal | utils/videoGenerator.ts:14-24 | Every pushed line was too wide with the next line's first word added. |
| TextLayout.WrapKeepsWords | utils/videoGenerator.ts:11-25 | wrapText produces at least one line. Its groups of words concatenate to the words, and its lines concatenate to every word followed by one space. |
| TextLayout.WrapLinesFit | utils/videoGenerator.ts:14-25 | Every line measures at most maxWidth or holds exactly one word. With at least one word, no line is empty. |
| TextLayout.WrapLinesGreedy | utils/videoGenerator.ts:14-24 | Every line but the last would be too wide with the first word of the next line appended. |
| TextLayout.BreakLines | utils/videoGenerator.ts:11-25 | The first loop of wrapText, reassigning `line` and pushing to `lines`, returns exactly `WrapLines` of the words. |
| TextLayout.TrimSpec | utils/videoGenerator.ts:31 | `trim()` returns the slice of the line between its leading and trailing white space, all of which it removes. Unless empty, the result neither starts nor ends with white space. |
| TextLayout.LineYFormula | utils/videoGenerator.ts:27-32 | With k lines, line i is drawn at `startY - (k - 1) * lineHeight / 2 + i * lineHeight`. |
| TextLayout.LinesCentred | utils/videoGenerator.ts:27-32 | The first and last lines are symmetric about startY, and consecutive lines are one line height apart. |
| TextLayout.TextCommandsAt | utils/videoGenerator.ts:30-33 | The drawing loop makes one `fillText` per line: line i, trimmed, at startX and the baseline of line i. |
| TextLayout.PlaceLines | utils/videoGenerator.ts:27-33 | The second loop of wrapText, advancing `currentY`, returns exactly `TextCommands` of the lines. |
| TextLayout.WrapText | utils/videoGenerator.ts:9-34 | wrapText draws `TextCommands` of `WrapLines(Split(text))`, so all the properties above apply to its output. |
| Compositor.OverlayCommands | utils/videoGenerator.ts:56-72 | The overlay draws nothing exactly when the opacity is at most 0.01. |
| Compositor.OverlayLayout | utils/videoGenerator.ts:59-72 | A visible overlay draws, in order: the band over the bottom 25% of the canvas at alpha 0.6 * opacity; the text style with font max(18, H/30); one trimmed line per caption line, centred at W/2 and around the middle of the band, 1.2 font sizes apart. |
| Compositor.OverlayIsCaption | utils/videoGenerator.ts:56-72 | The overlay makes no image or alpha calls. |
| Compositor.DrawTextOverlay | utils/videoGenerator.ts:56-73 | drawTextOverlay draws `OverlayCommands` of the caption wrapped at W - 40. |
| Compositor.FrameBlending | utils/videoGenerator.ts:180-210 | A frame clears to black and draws its page's image. Exactly in a crossfade, it then draws the next image at an alpha strictly inside (0, 1) and restores the alpha to 1. The rest is the caption at the frame's opacity and draws no images. |
| Compositor.DrawFrame | utils/videoGenerator.ts:180-210 | The drawing part of the tick produces exactly `FrameCommands` for its page and time into the page. |
| Progress.TotalSeconds | utils/videoGenerator.ts:214 | `Math.ceil(total / 1000)`: the least whole number of seconds that covers the total. |
| Progress.Second | utils/videoGenerator.ts:212 | `Math.floor(elapsed / 1000)`: the second the elapsed time falls in. |
| Progress.SecondMonotone | utils/videoGenerator.ts:212 | A later instant never falls in an earlier second. |
| Progress.AfterShape | utils/videoGenerator.ts:212-216 | The reported seconds strictly increase, so there is at most one report per second. Each is the second of a drawn frame. `lastProgressSecond` is the latest report, or -1 before any, and there is a report once any frame has been drawn. |
| Progress.FirstReport | utils/videoGenerator.ts:212-216 | The first frame drawn always reports its own second. |
| Progress.SortedAfterReportsAll | utils/videoGenerator.ts:212-216 | For frames drawn in time order, `lastProgressSecond` is the second of the latest frame and every second in which a frame was drawn is reported. |
| Chunks.NonEmptyUpTo | utils/videoGenerator.ts:127-129 | The kept chunks are never more than the blobs delivered, and none of them is empty. |
| Chunks.NonEmptySnoc | utils/videoGenerator.ts:127-129 | A delivered blob is appended to the chunks exactly when its size is positive. |
| Chunks.NonEmptyKeepsAll | utils/videoGenerator.ts:125-129 | When no empty blob was delivered, every blob is kept, in arrival order. |
| Chunks.NonEmptyKeepsBytes | utils/videoGenerator.ts:125-136 | Dropping the empty blobs loses no byte: the video's bytes are all the delivered bytes, in order. |
| Render.TotalSecondsOfTimeline | utils/videoGenerator.ts:160-214 | The denominator of "Encoding" is 10 seconds per page. |
| Render.EndTickStops | utils/videoGenerator.ts:170-175 | A tick with elapsed at or past the total draws nothing and schedules no frame. It stops the recorder exactly when the recorder is recording, and reports no progress. |
| Render.DrawTickReschedules | utils/videoGenerator.ts:177-218 | A tick before the end draws its frame first and never stops the recorder. It schedules the next frame exactly once, as its last effect. It reports its second exactly when that second is later than `lastProgressSecond`, with the video length in seconds as the denominator. |
| Render.FrameReports | utils/videoGenerator.ts:212-218 | The effects of a drawn frame contain an "Encoding" report exactly when the throttle lets one through. |
| Render.ClockTick | utils/videoGenerator.ts:164-168 | With the `!startTime` re-capture, a tick on non-decreasing timestamps has a non-negative elapsed time. The frames stay in time order, and the first one is at 0. |
| Render.ThrottleDraw | utils/videoGenerator.ts:212-216 | Drawing a frame and reporting its second exactly when it is later than `lastProgressSecond` advances the session's log and `lastProgressSecond` the way the throttle `After` does. |
| Render.ThrottleQuiet | utils/videoGenerator.ts:170-175 | Effects without an "Encoding" message leave the reports and `lastProgressSecond` as they were. |
| Render.RenderSession.constructor | utils/videoGenerator.ts:157-162 | The session starts after the three loading messages, `recorder.start()`, `audioSource.start(0)` and the first `requestAnimationFrame`. `startTime` is null, `lastProgressSecond` is -1, the recorder is recording, `chunks` is empty and the promise is pending. |
| Render.RenderSession.Tick | utils/videoGenerator.ts:164-219 | The session stays valid. `startTime` is re-captured when null or 0. Before the end, the canvas holds `FrameAt(elapsed)` and the log grows by the tick's draw, throttled progress and frame request; `lastProgressSecond` becomes the new second when it is later. At or past the end, the canvas is unchanged and the recorder is stopped if it was recording; nothing is rescheduled and the recorder is inactive. Chunks and outcome are unchanged. |
| Render.RenderSession.StopAtEnd | utils/videoGenerator.ts:170-175 | The end branch of the tick: only `StopRecorder`, and only while recording, is logged. The recorder ends inactive with no frame pending, and the throttle state is unchanged. |
| Render.RenderSession.RecordFrame | utils/videoGenerator.ts:209-218 | The drawing branch of the tick after the frame is drawn: the frame is on the canvas and the log grows by the tick's effects. `lastProgressSecond` takes the new second when later, and the next frame is requested. |
| Render.RenderSession.OnDataAvailable | utils/videoGenerator.ts:127-129 | `chunks` grows by the blob exactly when it is non-empty, and nothing else changes. |
| Render.RenderSession.OnStop | utils/videoGenerator.ts:134-149 | The log grows by "Finalizing", the download of `bedtime-story.webm` (type `video/webm`) holding the chunks' bytes, "Video ready!", the frame cancel and the audio close. The downloaded bytes are all the delivered bytes. The promise is resolved unless already settled. |
| Render.RenderSession.OnError | utils/videoGenerator.ts:151-155 | The log grows by the frame cancel and the audio close. The promise is rejected with "MediaRecorder error: " and the error, unless already settled. |
| Render.RenderSession.ProgressReports | utils/videoGenerator.ts:161-216 | In every valid state the "Encoding" seconds of the log strictly increase, start with 0s, and include every second in which a frame was drawn. `lastProgressSecond` is the second of the latest frame, or -1. |

## Left out

- Loading (lines 77-124): creating the canvas, loading the images, fetching
  and decoding the music, building the media streams and constructing the
  `MediaRecorder`. These are I/O. The session starts with the images
  already decoded (`ImagesReady`: one image of positive size per page), so
  the image-load and audio-load failures that reject the promise before
  recording are not modelled.
- Canvas pixels: `fillRect`, `drawImage`, `fillText` and `globalAlpha` are
  recorded as `Canvas.Command` values. Nothing is rasterised, so the font
  family, `textAlign` and `textBaseline` are only the `SetTextStyle` call.
- `MediaRecorder`, `captureStream`, `AudioContext`: the recorder is the
  two-state `RecorderState`. `recorder.stop()` and an error make it inactive
  at once, and the `stop` and `error` events are methods that any caller may
  invoke at any time. The audio graph is only a logged `StartAudio` and
  `CloseAudio`.
- `requestAnimationFrame` timing: a tick needs a pending frame and a
  timestamp no earlier than the previous one. `animationFrameId` is not
  kept; `cancelAnimationFrame` is the logged `CancelFrame`.
- The object-URL download (`createObjectURL`, the anchor element,
  `revokeObjectURL`): one logged `Download` of the file name, the type and
  the bytes.
- Floating point: times are integer milliseconds, and opacities, alphas and
  geometry are exact reals, so no rounding of JS doubles is modelled.
  `measureText` is an uninterpreted function.
- Geometry.Letterbox: is stated for exact real division; JS doubles may differ in the last bits.
- Timeline.CaptionVisibility: its millisecond bounds are those of exact reals
  on whole milliseconds. In JS doubles the opacity at 9985 ms before a
  following page, `1 - (9985 - 8500)/1500`, is 0.010000000000000009, which
  is above the 0.01 cutoff, so the program also draws the caption at
  9985 ms. Fractional `requestAnimationFrame` timestamps move the bounds
  within the millisecond.
- services/, utils/pdfGenerator.ts, App.tsx, components/, utils/music.ts
  and utils/devConfig.ts are not part of this model. They are SDK wrappers,
  UI, or constant data. types.ts contributes only the `StoryPage` datatype.

## Behaviour of the code worth noting

- utils/videoGenerator.ts shows every page for a fixed 10 seconds
  (`PAGE_DURATION_MS`). It reads none of `textEffect`, `audioUrl` and
  `audioDuration`, although `StoryPage` carries them, and the only audio
  it records is the background music.
- The crossfade alpha never reaches 1. On whole milliseconds its largest
  value, at 9999 ms, is 1499/1500, after which the next page starts
  (`CrossfadeAlpha`). With fractional frame timestamps it comes arbitrarily
  close to 1, but stays below it.
- On a page followed by another, the caption fades to 0 at 8500 ms and,
  on whole milliseconds, jumps back to 1499/1500 at 8501 ms, when the crossfade takes over its
  opacity (`CaptionJumpAtTransition`). The model keeps this jump.
- Progress is reported at most once per whole second, and a second in
  which no frame was drawn is skipped (`AfterShape`,
  `SortedAfterReportsAll`).
- A `startTime` of 0 is falsy, so it is captured again on the next tick
  (`Restart`).
- The word loop of `wrapText` starts a new line only when the word is not
  the first (`n > 0`), so a line is never broken before the first word,
  even when that word alone is wider than the limit.
