/** Bytes of source text, and the ones the scanners look for. */
module Bytes {
  newtype Byte = b: int | 0 <= b < 256

  type Text = seq<Byte>

  const TAB: Byte := 9
  const NEWLINE: Byte := 10
  const RETURN: Byte := 13
  const SPACE: Byte := 32
  const QUOTE: Byte := 34
  const HASH: Byte := 35
  const APOSTROPHE: Byte := 39
  const STAR: Byte := 42
  const SLASH: Byte := 47
  const BACKSLASH: Byte := 92
}
