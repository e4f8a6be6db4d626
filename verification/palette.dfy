/** The colours the screens compare and display, as 32-bit ARGB values the
    way Compose's `Color(0xAARRGGBB)` packs them. Two colours are equal when
    their packed values are. */
module Palette {

  datatype Color = Color(argb: int)

  const Transparent: Color := Color(0x0000_0000)
  const White: Color := Color(0xFFFF_FFFF)
  const Black: Color := Color(0xFF00_0000)
  const DarkGray: Color := Color(0xFF44_4444)
  /** The list's "expires very soon" red. */
  const Red: Color := Color(0xFFE5_7373)
  /** The list's "expires soon" amber. */
  const Amber: Color := Color(0xFFFF_B74D)

  /** Fully transparent: the alpha byte is zero. */
  predicate IsInvisible(c: Color)
  {
    c.argb / 0x100_0000 == 0
  }
}
