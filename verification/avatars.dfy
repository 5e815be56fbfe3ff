/**
 * The avatar decision of the tray: use the circular image the avatar job
 * produced, or, when there is none, a 128 by 128 transparent canvas with a
 * themed "user" glyph drawn on it. Pixels and SVG rendering are not modelled;
 * an image is either the fetched handle or a description of the placeholder.
 */
module Avatars {
  import opened Wrappers
  import opened Accounts

  /** The two themed variants of the user glyph. */
  datatype Glyph = BlackUserGlyph | WhiteUserGlyph

  datatype Image =
    | Fetched(handle: ImageHandle)
    | Placeholder(width: nat, height: nat, glyph: Glyph)

  const PlaceholderSize: nat := 128

  /** The glyph drawn on a placeholder: a white background asks for the black glyph. */
  function GlyphFor(whiteBg: bool): (g: Glyph)
    ensures g == BlackUserGlyph <==> whiteBg
    ensures g == WhiteUserGlyph <==> !whiteBg
  {
    if whiteBg then BlackUserGlyph else WhiteUserGlyph
  }

  /** A placeholder canvas with the given glyph. */
  function PlaceholderWith(g: Glyph): (img: Image)
    ensures img.Placeholder? && img.glyph == g
    ensures img.width == 128 && img.height == 128
  {
    Placeholder(PlaceholderSize, PlaceholderSize, g)
  }

  /**
   * The avatar shown for an account: the fetched circular image when there
   * is one, else a 128x128 placeholder whose glyph contrasts with the
   * requested background.
   */
  function Resolve(fetched: Option<ImageHandle>, whiteBg: bool): (img: Image)
    ensures fetched.Some? ==> img == Fetched(fetched.value)
    ensures fetched.None? ==> img.Placeholder? && img.width == 128 && img.height == 128
    ensures fetched.None? ==> (img.glyph == BlackUserGlyph <==> whiteBg)
  {
    match fetched
    case Some(h) => Fetched(h)
    case None => PlaceholderWith(GlyphFor(whiteBg))
  }

  /** The image shown for the current user when there are no users at all. */
  const NoUserImage: Image := PlaceholderWith(WhiteUserGlyph)

  /**
   * Resolution never yields an empty image, the two background choices give
   * different placeholders, and the no-user image is the placeholder of the
   * default (dark background) request.
   */
  lemma PlaceholderProperties(fetched: Option<ImageHandle>)
    ensures Resolve(fetched, true) != Resolve(fetched, false) <==> fetched.None?
    ensures Resolve(None, false) == NoUserImage
    ensures NoUserImage.Placeholder? && NoUserImage.width == NoUserImage.height == PlaceholderSize
  {
  }
}
