/** Letterboxed placement of a page illustration (drawImageWithLetterbox). */
module Geometry {
  import opened Canvas

  /** The rectangle an image of the given size is drawn into: scaled to fit
      the canvas, aspect ratio kept, centred on the axis it does not fill. */
  function Letterbox(canvasWidth: real, canvasHeight: real, imageWidth: real, imageHeight: real): (r: Rect)
    requires canvasWidth > 0.0 && canvasHeight > 0.0 && imageWidth > 0.0 && imageHeight > 0.0
    ensures 0.0 <= r.x && 0.0 <= r.y && r.x + r.w <= canvasWidth && r.y + r.h <= canvasHeight
    ensures 2.0 * r.x + r.w == canvasWidth && 2.0 * r.y + r.h == canvasHeight
    ensures r.w > 0.0 && r.h > 0.0 && r.w / r.h == imageWidth / imageHeight
    ensures imageWidth / imageHeight > canvasWidth / canvasHeight ==> r.x == 0.0 && r.w == canvasWidth
    ensures imageWidth / imageHeight <= canvasWidth / canvasHeight ==> r.y == 0.0 && r.h == canvasHeight
  {
    var canvasAspect := canvasWidth / canvasHeight;
    var imageAspect := imageWidth / imageHeight;
    if imageAspect > canvasAspect then
      var drawHeight := canvasWidth / imageAspect;
      AspectScaling(canvasWidth, canvasHeight, imageAspect, drawHeight);
      Rect(0.0, (canvasHeight - drawHeight) / 2.0, canvasWidth, drawHeight)
    else
      var drawWidth := canvasHeight * imageAspect;
      Rect((canvasWidth - drawWidth) / 2.0, 0.0, drawWidth, canvasHeight)
  }

  /** A width and a height in the ratio `aspect`, and the ratio ordering that
      decides which of them fits. */
  lemma AspectScaling(w: real, h0: real, aspect: real, h: real)
    requires w > 0.0 && h0 > 0.0 && aspect > 0.0 && h > 0.0 && w == h * aspect
    ensures w / h == aspect
    ensures aspect > w / h0 ==> h < h0
  {
  }
}
