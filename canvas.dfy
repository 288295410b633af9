/** The drawing calls the renderer makes on its 2D canvas context, kept as
    values instead of pixels. */
module Canvas {
  /** An axis-aligned rectangle: top-left corner, width and height. */
  datatype Rect = Rect(x: real, y: real, w: real, h: real)

  /** The fill styles the renderer uses: opaque black for the background and
      `rgba(0, 0, 0, alpha)` for the caption band. */
  datatype Shade = Black | TranslucentBlack(alpha: real)

  datatype Command =
    | FillRect(rect: Rect, shade: Shade)
      /** `drawImage` of the decoded illustration of page `page`. */
    | DrawImage(page: nat, rect: Rect)
      /** An assignment to `ctx.globalAlpha`. */
    | SetGlobalAlpha(alpha: real)
      /** The caption style: `rgba(255, 255, 255, alpha)`, `fontSize` px,
          centred horizontally and vertically on the anchor of each text call. */
    | SetTextStyle(alpha: real, fontSize: real)
    | FillText(text: string, x: real, y: real)
}
