/** Machine words, bytes and C strings. */
module Basics {
  const UINT: nat := 0x1_0000_0000       // 32-bit unsigned arithmetic is modulo UINT

  type Uint = x: int | 0 <= x < UINT
  type Byte = x: int | 0 <= x < 256

  function Min(x: int, y: int): int { if x < y then x else y }

  /** s[i], or the NUL after the end. */
  function Char(s: string, i: nat): char { if i < |s| then s[i] else '\0' }
}
