/** The fixed-duration timeline of utils/videoGenerator.ts: which page is on
    screen at an instant, and how the next image and the caption blend in. */
module Timeline {
  import opened Wrappers

  /** Every page is shown for ten seconds. */
  const PageDurationMs: nat := 10000
  /** The next image fades in over the last 1.5 seconds of a page. */
  const TransitionDurationMs: nat := 1500
  /** The caption fades in and out over half a second. */
  const TextFadeDurationMs: nat := 500
  /** Time into a page after which the crossfade runs. */
  const TransitionPointMs: nat := PageDurationMs - TransitionDurationMs

  /** Length of the whole video for `pageCount` pages. */
  function TotalDuration(pageCount: nat): nat
  {
    pageCount * PageDurationMs
  }

  /** What a render tick shows at one elapsed instant. */
  datatype Position = End | At(pageIndex: nat, timeIntoPage: nat)

  /** The page on screen `elapsed` ms after the start, and the time into it. */
  function Locate(elapsed: nat, pageCount: nat): (r: Position)
    ensures r.End? <==> elapsed >= TotalDuration(pageCount)
    ensures r.At? ==> r.pageIndex < pageCount && r.timeIntoPage < PageDurationMs
    ensures r.At? ==> r.pageIndex * PageDurationMs + r.timeIntoPage == elapsed
  {
    if elapsed >= TotalDuration(pageCount) then End
    else At(elapsed / PageDurationMs, elapsed % PageDurationMs)
  }

  /** Every instant before the end has exactly one page and offset: any
      decomposition of `elapsed` into a page and an offset below one page
      duration is the one `Locate` returns. */
  lemma LocateUnique(elapsed: nat, pageCount: nat, page: nat, offset: nat)
    requires page < pageCount && offset < PageDurationMs
    requires page * PageDurationMs + offset == elapsed
    ensures Locate(elapsed, pageCount) == At(page, offset)
  {
    assert elapsed < TotalDuration(pageCount) by {
      assert (page + 1) * PageDurationMs <= pageCount * PageDurationMs;
    }
  }

  /** The first instant of page k belongs to page k, not to page k - 1. */
  lemma PageStartBelongsToPage(page: nat, pageCount: nat)
    requires page < pageCount
    ensures Locate(page * PageDurationMs, pageCount) == At(page, 0)
  {
    LocateUnique(page * PageDurationMs, pageCount, page, 0);
  }

  /** The next image is blended in the tail of every page but the last. */
  predicate InCrossfade(timeIntoPage: nat, pageIndex: nat, pageCount: nat)
  {
    timeIntoPage > TransitionPointMs && pageIndex + 1 < pageCount
  }

  /** The `globalAlpha` at which the next page's image is drawn, or None when
      it is not drawn at all. */
  function CrossfadeAlpha(timeIntoPage: nat, pageIndex: nat, pageCount: nat): (r: Option<real>)
    ensures r.Some? <==> InCrossfade(timeIntoPage, pageIndex, pageCount)
    ensures r.Some? ==> r.value * (TransitionDurationMs as real) == (timeIntoPage - TransitionPointMs) as real
    ensures r.Some? && timeIntoPage < PageDurationMs ==> 0.0 < r.value < 1.0
  {
    if InCrossfade(timeIntoPage, pageIndex, pageCount) then
      Some((timeIntoPage - TransitionPointMs) as real / TransitionDurationMs as real)
    else
      None
  }

  /** The crossfade alpha grows strictly with the time into the page. */
  lemma CrossfadeIncreasing(t1: nat, t2: nat, pageIndex: nat, pageCount: nat)
    requires InCrossfade(t1, pageIndex, pageCount) && t1 < t2
    ensures CrossfadeAlpha(t1, pageIndex, pageCount).value < CrossfadeAlpha(t2, pageIndex, pageCount).value
  {
  }

  /** The opacity of the caption at a time into a page. */
  function TextOpacity(timeIntoPage: nat, pageIndex: nat, pageCount: nat): (r: real)
    ensures timeIntoPage <= PageDurationMs ==> 0.0 <= r <= 1.0
    ensures InCrossfade(timeIntoPage, pageIndex, pageCount) ==>
      r == 1.0 - CrossfadeAlpha(timeIntoPage, pageIndex, pageCount).value
    ensures timeIntoPage < TextFadeDurationMs ==> r * (TextFadeDurationMs as real) == timeIntoPage as real
    ensures pageIndex + 1 >= pageCount && timeIntoPage >= TextFadeDurationMs ==> r == 1.0
  {
    var alpha := CrossfadeAlpha(timeIntoPage, pageIndex, pageCount);
    if alpha.Some? then
      1.0 - alpha.value
    else if timeIntoPage < TextFadeDurationMs then
      timeIntoPage as real / TextFadeDurationMs as real
    else if timeIntoPage > TransitionPointMs - TextFadeDurationMs && pageIndex + 1 < pageCount then
      (TransitionPointMs - timeIntoPage) as real / TextFadeDurationMs as real
    else
      1.0
  }

  /** Between the fade-in and the fade-out the caption is fully opaque; on
      a page followed by another it fades out linearly over the 500 ms
      before the transition point. */
  lemma TextPlateauAndFadeOut(timeIntoPage: nat, pageIndex: nat, pageCount: nat)
    ensures TextFadeDurationMs <= timeIntoPage <= TransitionPointMs - TextFadeDurationMs ==>
      TextOpacity(timeIntoPage, pageIndex, pageCount) == 1.0
    ensures pageIndex + 1 < pageCount && TransitionPointMs - TextFadeDurationMs < timeIntoPage <= TransitionPointMs ==>
      TextOpacity(timeIntoPage, pageIndex, pageCount) * (TextFadeDurationMs as real)
        == (TransitionPointMs - timeIntoPage) as real
  {
  }

  /** On a page that is followed by another, the caption fades out to 0 at
      8500 ms and jumps back to nearly full opacity 1 ms later, when the
      crossfade takes over the caption's opacity. */
  lemma CaptionJumpAtTransition(pageIndex: nat, pageCount: nat)
    requires pageIndex + 1 < pageCount
    ensures TextOpacity(TransitionPointMs, pageIndex, pageCount) == 0.0
    ensures TextOpacity(TransitionPointMs + 1, pageIndex, pageCount) == 1499.0 / 1500.0
  {
  }

  /** The caption overlay is skipped at opacity 0.01 or less. */
  const VisibleOpacity: real := 0.01

  /** When the caption is visible on whole milliseconds, with exact
      arithmetic: on a page followed by another, from 6 ms to 8494 ms and
      again from 8501 ms to 9984 ms; on the last page, from 6 ms on. */
  lemma CaptionVisibility(timeIntoPage: nat, pageIndex: nat, pageCount: nat)
    requires timeIntoPage < PageDurationMs
    ensures TextOpacity(timeIntoPage, pageIndex, pageCount) > VisibleOpacity <==>
      if pageIndex + 1 < pageCount then
        (5 < timeIntoPage < 8495) || (8500 < timeIntoPage < 9985)
      else
        5 < timeIntoPage
  {
  }
}
