/**
 * The logical framebuffer: 17 columns of 7 RGB pixels, indexed `disp[x][y]`,
 * and its column-major enumeration.
 */
module Framebuffer {
  import opened Bytes
  import opened Lut

  /** One logical pixel (the `rgb` crate's RGB8). */
  datatype Rgb = Rgb(r: Byte, g: Byte, b: Byte)

  const BLACK: Rgb := Rgb(0, 0, 0)

  ghost predicate IsGrid(d: seq<seq<Rgb>>)
  {
    |d| == COLS && forall x | 0 <= x < |d| :: |d[x]| == ROWS
  }

  /** `[[RGB8; ROWS]; COLS]`: every in-range coordinate holds a pixel. */
  type Grid = d: seq<seq<Rgb>> | IsGrid(d) witness seq(COLS, _ => seq(ROWS, _ => BLACK))

  /** A grid with every pixel set to c. */
  function Fill(c: Rgb): (d: Grid)
    ensures forall x, y | 0 <= x < COLS && 0 <= y < ROWS :: d[x][y] == c
  {
    seq(COLS, _ => seq(ROWS, _ => c))
  }

  /** The channel byte a pixel contributes for one colour channel. */
  function Component(c: Rgb, ch: Channel): Byte
  {
    match ch
    case Red => c.r
    case Green => c.g
    case Blue => c.b
  }

  /**
   * The columns laid end to end, as `iter().flat_map(|f| f.iter())` visits them:
   * pixel (x, y) comes at position x * ROWS + y.
   */
  function Flatten(cols: seq<seq<Rgb>>): (r: seq<Rgb>)
    requires forall x | 0 <= x < |cols| :: |cols[x]| == ROWS
    ensures |r| == |cols| * ROWS
    ensures forall x, y | 0 <= x < |cols| && 0 <= y < ROWS :: r[x * ROWS + y] == cols[x][y]
  {
    if |cols| == 0 then []
    else Flatten(cols[..|cols| - 1]) + cols[|cols| - 1]
  }
}
