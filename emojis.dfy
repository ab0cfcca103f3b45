/**
  The emoji record as the rest of the program sees it. The emoji database
  that builds these records is not part of this model: an emoji is given by
  the values its accessors return.
 */
module Emojis {

  /** A codepoint as an unsigned 32-bit value. */
  type Codepoint = n: nat | n < 0x1_0000_0000

  /** The skin tones an emoji can be rendered with. */
  datatype SkinTone = NoTone | Light | MediumLight | Medium | MediumDark | Dark

  /**
    One emoji: its name, its UTF-8 string and codepoints, whether it has
    skin-tone variants, and the string and codepoints of each variant.
   */
  datatype Emoji = Emoji(
    name: string,
    str: string,
    codepoints: seq<Codepoint>,
    hasSkinToneSupport: bool,
    strWithSkinTone: SkinTone -> string,
    codepointsWithSkinTone: SkinTone -> seq<Codepoint>)
}
