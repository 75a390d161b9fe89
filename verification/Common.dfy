/** What the modules share: machine words, control characters and the size of the
    text screen. */
module Common {

  type Word = x: nat | x < 0x1_0000_0000

  type Byte = b: nat | b < 256

  const NUL: char := 0 as char
  const BS: char := 8 as char          // backspace

  const WIDTH: nat := 80               // VGA_WIDTH
  const HEIGHT: nat := 25              // VGA_HEIGHT
  const CELLS: nat := 2000             // VGA_SIZE

  function Min(a: nat, b: nat): nat { if a < b then a else b }

  /** 32-bit unsigned arithmetic. */
  function Wrap(x: int): Word { if 0 <= x < 0x1_0000_0000 then x else x % 0x1_0000_0000 }
}
