/** The story data the renderer consumes (types.ts). */
module Story {
  import opened Wrappers

  /** One slide of a story. The video renderer reads only `text`; the image
      behind `imageUrl` reaches it already decoded, as an `ImageSize`. */
  datatype StoryPage = StoryPage(
    text: string,
    imageUrl: string,
    textEffect: string,
    audioUrl: Option<string>,
    audioDuration: Option<real>)

  /** The natural dimensions of a decoded page illustration. */
  datatype ImageSize = ImageSize(width: real, height: real)

  /** A decoded image has a positive width and height. */
  predicate Decoded(image: ImageSize)
  {
    image.width > 0.0 && image.height > 0.0
  }
}
