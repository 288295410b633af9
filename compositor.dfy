/** The frame compositor: the caption overlay (drawTextOverlay) and the
    drawing calls of one rendered frame. */
module Compositor {
  import opened Canvas
  import opened Story
  import opened Geometry
  import opened Timeline
  import opened TextLayout

  /** The canvas generateVideo renders on. */
  const CanvasWidth: real := 1920.0
  const CanvasHeight: real := 1080.0

  /** Height of the caption band. */
  function BandHeight(canvasHeight: real): real
  {
    canvasHeight * 0.25
  }

  /** The caption band, along the bottom edge of the canvas. */
  function CaptionBand(canvasWidth: real, canvasHeight: real): Rect
  {
    Rect(0.0, canvasHeight - BandHeight(canvasHeight), canvasWidth, BandHeight(canvasHeight))
  }

  /** `Math.max(18, canvasHeight / 30)`. */
  function FontSize(canvasHeight: real): real
  {
    if 18.0 >= canvasHeight / 30.0 then 18.0 else canvasHeight / 30.0
  }

  function LineHeight(canvasHeight: real): real
  {
    FontSize(canvasHeight) * 1.2
  }

  /** The caption wrapped 20 px inside each side of the canvas. */
  function CaptionLines(canvasWidth: real, text: string, width: string -> real): seq<string>
  {
    WrapLines(Split(text), canvasWidth - 40.0, width)
  }

  /** What drawTextOverlay draws for the wrapped caption `lines`: nothing at
      opacity 0.01 or less; otherwise the translucent band, the text style
      and the lines. */
  function OverlayCommands(canvasWidth: real, canvasHeight: real, lines: seq<string>, opacity: real)
    : (cmds: seq<Command>)
    ensures cmds == [] <==> opacity <= VisibleOpacity
  {
    if opacity <= VisibleOpacity then []
    else
      [FillRect(CaptionBand(canvasWidth, canvasHeight), TranslucentBlack(0.6 * opacity)),
       SetTextStyle(opacity, FontSize(canvasHeight))]
      + TextCommands(lines, canvasWidth / 2.0, canvasHeight - BandHeight(canvasHeight) / 2.0,
                     LineHeight(canvasHeight))
  }

  /** A visible caption: the band covers the bottom quarter of the canvas at
      60% of the caption's opacity; the font is at least 18 px and at least a
      thirtieth of the height, one of the two; every line is drawn trimmed,
      centred horizontally, the block of lines centred vertically in the
      band with a line height of 1.2 font sizes. */
  lemma OverlayLayout(canvasWidth: real, canvasHeight: real, lines: seq<string>, opacity: real)
    requires opacity > VisibleOpacity
    ensures var cmds := OverlayCommands(canvasWidth, canvasHeight, lines, opacity);
      var band := CaptionBand(canvasWidth, canvasHeight);
      var size := FontSize(canvasHeight);
      && band.x == 0.0 && band.w == canvasWidth
      && band.y + band.h == canvasHeight && 4.0 * band.h == canvasHeight
      && size >= 18.0 && size >= canvasHeight / 30.0 && (size == 18.0 || size == canvasHeight / 30.0)
      && |cmds| == 2 + |lines|
      && cmds[0] == FillRect(band, TranslucentBlack(0.6 * opacity))
      && cmds[1] == SetTextStyle(opacity, size)
      && forall i :: 2 <= i < |cmds| ==>
           cmds[i] == FillText(Trim(lines[i - 2]), canvasWidth / 2.0,
                               LineY(|lines|, i - 2, band.y + band.h / 2.0, 1.2 * size))
  {
    var band := CaptionBand(canvasWidth, canvasHeight);
    var startY := canvasHeight - BandHeight(canvasHeight) / 2.0;
    var lh := LineHeight(canvasHeight);
    assert band.y + band.h / 2.0 == startY;
    assert lh == 1.2 * FontSize(canvasHeight);
    var head := [FillRect(band, TranslucentBlack(0.6 * opacity)), SetTextStyle(opacity, FontSize(canvasHeight))];
    assert OverlayCommands(canvasWidth, canvasHeight, lines, opacity)
        == head + TextCommands(lines, canvasWidth / 2.0, startY, lh);
    PrefixedTextAt(head, lines, canvasWidth / 2.0, startY, lh);
  }

  /** The caption lines drawn after a fixed header of drawing calls. */
  lemma PrefixedTextAt(head: seq<Command>, lines: seq<string>, startX: real, startY: real, lineHeight: real)
    ensures var cmds := head + TextCommands(lines, startX, startY, lineHeight);
      && |cmds| == |head| + |lines|
      && forall i :: |head| <= i < |cmds| ==>
           cmds[i] == FillText(Trim(lines[i - |head|]), startX, LineY(|lines|, i - |head|, startY, lineHeight))
  {
    TextCommandsAt(lines, |lines|, startX, startY, lineHeight);
  }

  /** A caption drawing call, as opposed to an image or alpha call. */
  predicate IsCaptionCommand(cmd: Command)
  {
    cmd.FillRect? || cmd.SetTextStyle? || cmd.FillText?
  }

  /** The overlay draws nothing but the band, the text style and the text. */
  lemma OverlayIsCaption(canvasWidth: real, canvasHeight: real, lines: seq<string>, opacity: real)
    ensures var cmds := OverlayCommands(canvasWidth, canvasHeight, lines, opacity);
      forall i :: 0 <= i < |cmds| ==> IsCaptionCommand(cmds[i])
  {
    var cmds := OverlayCommands(canvasWidth, canvasHeight, lines, opacity);
    if opacity > VisibleOpacity {
      OverlayLayout(canvasWidth, canvasHeight, lines, opacity);
      forall i | 0 <= i < |cmds|
        ensures IsCaptionCommand(cmds[i])
      {
        if i >= 2 {
          assert cmds[i].FillText?;
        }
      }
    }
  }

  /** drawTextOverlay. */
  method DrawTextOverlay(canvasWidth: real, canvasHeight: real, text: string, opacity: real,
                         width: string -> real) returns (cmds: seq<Command>)
    ensures cmds == OverlayCommands(canvasWidth, canvasHeight, CaptionLines(canvasWidth, text, width), opacity)
  {
    if opacity <= VisibleOpacity {
      return [];
    }
    var textBgHeight := BandHeight(canvasHeight);
    var band := FillRect(Rect(0.0, canvasHeight - textBgHeight, canvasWidth, textBgHeight),
                         TranslucentBlack(0.6 * opacity));
    var fontSize := FontSize(canvasHeight);
    var style := SetTextStyle(opacity, fontSize);
    var lineHeight := LineHeight(canvasHeight);
    var texts := WrapText(text, canvasWidth / 2.0, canvasHeight - textBgHeight / 2.0, canvasWidth - 40.0,
                          lineHeight, width);
    cmds := [band, style] + texts;
  }

  /** One decoded image per page. */
  predicate ImagesReady(pages: seq<StoryPage>, images: seq<ImageSize>)
  {
    |images| == |pages| && forall i :: 0 <= i < |images| ==> Decoded(images[i])
  }

  /** Where drawImageWithLetterbox puts the image of a page on the canvas. */
  function PlaceImage(images: seq<ImageSize>, page: nat): Rect
    requires page < |images| && Decoded(images[page])
  {
    Letterbox(CanvasWidth, CanvasHeight, images[page].width, images[page].height)
  }

  /** The image part of a frame at `timeIntoPage` into page `pageIndex`:
      black background and the page's image, and in a crossfade the next
      image at the crossfade alpha with `globalAlpha` restored to 1. */
  function FrameImages(pages: seq<StoryPage>, images: seq<ImageSize>, pageIndex: nat, timeIntoPage: nat)
    : seq<Command>
    requires ImagesReady(pages, images) && pageIndex < |pages|
  {
    var background := [FillRect(Rect(0.0, 0.0, CanvasWidth, CanvasHeight), Black),
                       DrawImage(pageIndex, PlaceImage(images, pageIndex))];
    var alpha := CrossfadeAlpha(timeIntoPage, pageIndex, |pages|);
    if alpha.Some? then
      background + [SetGlobalAlpha(alpha.value),
                    DrawImage(pageIndex + 1, PlaceImage(images, pageIndex + 1)),
                    SetGlobalAlpha(1.0)]
    else background
  }

  /** The drawing calls of a frame: the images, then the page's caption at
      the frame's caption opacity. */
  function FrameCommands(pages: seq<StoryPage>, images: seq<ImageSize>, width: string -> real,
                         pageIndex: nat, timeIntoPage: nat): seq<Command>
    requires ImagesReady(pages, images) && pageIndex < |pages|
  {
    FrameImages(pages, images, pageIndex, timeIntoPage) +
      OverlayCommands(CanvasWidth, CanvasHeight, CaptionLines(CanvasWidth, pages[pageIndex].text, width),
                      TextOpacity(timeIntoPage, pageIndex, |pages|))
  }

  /** A frame draws its own page's image over the background; it draws the
      next page's image, at the crossfade alpha (strictly between 0 and 1)
      and with the alpha restored to 1 right after, exactly when it is in a crossfade;
      everything after that is the caption at the frame's caption opacity. */
  lemma FrameBlending(pages: seq<StoryPage>, images: seq<ImageSize>, width: string -> real,
                      pageIndex: nat, timeIntoPage: nat)
    requires ImagesReady(pages, images) && pageIndex < |pages| && timeIntoPage < PageDurationMs
    ensures var cmds := FrameCommands(pages, images, width, pageIndex, timeIntoPage);
      var fading := InCrossfade(timeIntoPage, pageIndex, |pages|);
      var k := if fading then 5 else 2;
      && |FrameImages(pages, images, pageIndex, timeIntoPage)| == k
      && cmds[0] == FillRect(Rect(0.0, 0.0, CanvasWidth, CanvasHeight), Black)
      && cmds[1] == DrawImage(pageIndex, PlaceImage(images, pageIndex))
      && (fading ==>
            && cmds[2] == SetGlobalAlpha(CrossfadeAlpha(timeIntoPage, pageIndex, |pages|).value)
            && 0.0 < cmds[2].alpha < 1.0
            && cmds[3] == DrawImage(pageIndex + 1, PlaceImage(images, pageIndex + 1))
            && cmds[4] == SetGlobalAlpha(1.0))
      && cmds[k..] == OverlayCommands(CanvasWidth, CanvasHeight,
                                      CaptionLines(CanvasWidth, pages[pageIndex].text, width),
                                      TextOpacity(timeIntoPage, pageIndex, |pages|))
      && forall i :: k <= i < |cmds| ==> IsCaptionCommand(cmds[i])
  {
    var frame := FrameImages(pages, images, pageIndex, timeIntoPage);
    var lines := CaptionLines(CanvasWidth, pages[pageIndex].text, width);
    var overlay := OverlayCommands(CanvasWidth, CanvasHeight, lines, TextOpacity(timeIntoPage, pageIndex, |pages|));
    OverlayIsCaption(CanvasWidth, CanvasHeight, lines, TextOpacity(timeIntoPage, pageIndex, |pages|));
    CaptionAfterImages(frame, overlay);
  }

  /** The calls after the images are the caption's. */
  lemma CaptionAfterImages(frame: seq<Command>, overlay: seq<Command>)
    requires forall i :: 0 <= i < |overlay| ==> IsCaptionCommand(overlay[i])
    ensures (frame + overlay)[|frame|..] == overlay
    ensures forall i :: 0 <= i < |frame| ==> (frame + overlay)[i] == frame[i]
    ensures forall i :: |frame| <= i < |frame + overlay| ==> IsCaptionCommand((frame + overlay)[i])
  {
    forall i | |frame| <= i < |frame + overlay|
      ensures IsCaptionCommand((frame + overlay)[i])
    {
      assert (frame + overlay)[i] == overlay[i - |frame|];
    }
  }

  /** The drawing part of the render tick for one frame. */
  method DrawFrame(pages: seq<StoryPage>, images: seq<ImageSize>, width: string -> real,
                   pageIndex: nat, timeIntoPage: nat) returns (cmds: seq<Command>)
    requires ImagesReady(pages, images) && pageIndex < |pages|
    ensures cmds == FrameCommands(pages, images, width, pageIndex, timeIntoPage)
  {
    cmds := [FillRect(Rect(0.0, 0.0, CanvasWidth, CanvasHeight), Black)];
    cmds := cmds + [DrawImage(pageIndex, PlaceImage(images, pageIndex))];
    var textOpacity := 1.0;
    if timeIntoPage > TransitionPointMs && pageIndex < |pages| - 1 {
      var transitionProgress := (timeIntoPage - TransitionPointMs) as real / TransitionDurationMs as real;
      cmds := cmds + [SetGlobalAlpha(transitionProgress)];
      cmds := cmds + [DrawImage(pageIndex + 1, PlaceImage(images, pageIndex + 1))];
      cmds := cmds + [SetGlobalAlpha(1.0)];
      textOpacity := 1.0 - transitionProgress;
    } else {
      if timeIntoPage < TextFadeDurationMs {
        textOpacity := timeIntoPage as real / TextFadeDurationMs as real;
      } else if timeIntoPage > TransitionPointMs - TextFadeDurationMs && pageIndex < |pages| - 1 {
        textOpacity := (TransitionPointMs - timeIntoPage) as real / TextFadeDurationMs as real;
      }
    }
    assert cmds == FrameImages(pages, images, pageIndex, timeIntoPage);
    assert textOpacity == TextOpacity(timeIntoPage, pageIndex, |pages|);
    var overlay := DrawTextOverlay(CanvasWidth, CanvasHeight, pages[pageIndex].text, textOpacity, width);
    cmds := cmds + overlay;
  }
}
