/**
 * The fixed wiring table of the panel: for every logical pixel, the three
 * byte offsets (red, green, blue) of its LEDs inside the combined display
 * memory of the two driver chips.
 */
module Lut {
  /** Logical geometry: 17 columns of 7 pixels. */
  const COLS: nat := 17
  const ROWS: nat := 7
  const PIXELS: nat := COLS * ROWS

  /** Display memory of one driver chip: a 28 x 8 channel grid. */
  const CHIP_BYTES: nat := 28 * 8
  /** The combined buffer: left chip first, right chip second. */
  const BUF_LEN: nat := 2 * CHIP_BYTES

  datatype Channel = Red | Green | Blue

  /** One table entry: where the red, green and blue byte of a pixel go. */
  datatype Addr = Addr(red: nat, green: nat, blue: nat)

  function Offset(a: Addr, ch: Channel): nat
  {
    match ch
    case Red => a.red
    case Green => a.green
    case Blue => a.blue
  }

  /**
   * The seven entries of logical column x, for rows y = 0 .. 6, as in the
   * driver's table; columns past the last one are empty.
   */
  function Column(x: nat): (col: seq<Addr>)
    ensures |col| == if x < COLS then ROWS else 0
  {
    match x
    case 0 => [Addr(139, 138, 137), Addr(223, 222, 221), Addr(167, 166, 165), Addr(195, 194, 193), Addr(111, 110, 109), Addr(55, 54, 53), Addr(83, 82, 81)]
    case 1 => [Addr(136, 135, 134), Addr(220, 219, 218), Addr(164, 163, 162), Addr(192, 191, 190), Addr(108, 107, 106), Addr(52, 51, 50), Addr(80, 79, 78)]
    case 2 => [Addr(113, 115, 114), Addr(197, 199, 198), Addr(141, 143, 142), Addr(169, 171, 170), Addr(85, 87, 86), Addr(29, 31, 30), Addr(57, 59, 58)]
    case 3 => [Addr(116, 118, 117), Addr(200, 202, 201), Addr(144, 146, 145), Addr(172, 174, 173), Addr(88, 90, 89), Addr(32, 34, 33), Addr(60, 62, 61)]
    case 4 => [Addr(119, 121, 120), Addr(203, 205, 204), Addr(147, 149, 148), Addr(175, 177, 176), Addr(91, 93, 92), Addr(35, 37, 36), Addr(63, 65, 64)]
    case 5 => [Addr(122, 124, 123), Addr(206, 208, 207), Addr(150, 152, 151), Addr(178, 180, 179), Addr(94, 96, 95), Addr(38, 40, 39), Addr(66, 68, 67)]
    case 6 => [Addr(125, 127, 126), Addr(209, 211, 210), Addr(153, 155, 154), Addr(181, 183, 182), Addr(97, 99, 98), Addr(41, 43, 42), Addr(69, 71, 70)]
    case 7 => [Addr(128, 130, 129), Addr(212, 214, 213), Addr(156, 158, 157), Addr(184, 186, 185), Addr(100, 102, 101), Addr(44, 46, 45), Addr(72, 74, 73)]
    case 8 => [Addr(131, 133, 132), Addr(215, 217, 216), Addr(159, 161, 160), Addr(187, 189, 188), Addr(103, 105, 104), Addr(47, 49, 48), Addr(75, 77, 76)]
    case 9 => [Addr(363, 362, 361), Addr(447, 446, 445), Addr(391, 390, 389), Addr(419, 418, 417), Addr(335, 334, 333), Addr(279, 278, 277), Addr(307, 306, 305)]
    case 10 => [Addr(360, 359, 358), Addr(444, 443, 442), Addr(388, 387, 386), Addr(416, 415, 414), Addr(332, 331, 330), Addr(276, 275, 274), Addr(304, 303, 302)]
    case 11 => [Addr(337, 339, 338), Addr(421, 423, 422), Addr(365, 367, 366), Addr(393, 395, 394), Addr(309, 311, 310), Addr(253, 255, 254), Addr(281, 283, 282)]
    case 12 => [Addr(340, 342, 341), Addr(424, 426, 425), Addr(368, 370, 369), Addr(396, 398, 397), Addr(312, 314, 313), Addr(256, 258, 257), Addr(284, 286, 285)]
    case 13 => [Addr(343, 345, 344), Addr(427, 429, 428), Addr(371, 373, 372), Addr(399, 401, 400), Addr(315, 317, 316), Addr(259, 261, 260), Addr(287, 289, 288)]
    case 14 => [Addr(346, 348, 347), Addr(430, 432, 431), Addr(374, 376, 375), Addr(402, 404, 403), Addr(318, 320, 319), Addr(262, 264, 263), Addr(290, 292, 291)]
    case 15 => [Addr(349, 351, 350), Addr(433, 435, 434), Addr(377, 379, 378), Addr(405, 407, 406), Addr(321, 323, 322), Addr(265, 267, 266), Addr(293, 295, 294)]
    case 16 => [Addr(352, 354, 353), Addr(436, 438, 437), Addr(380, 382, 381), Addr(408, 410, 409), Addr(324, 326, 325), Addr(268, 270, 269), Addr(296, 298, 297)]
    case _ => []
  }

  /** The entries of columns col(0) .. col(k - 1), column after column. */
  function Table(col: nat -> seq<Addr>, k: nat): seq<Addr>
  {
    if k == 0 then [] else Table(col, k - 1) + col(k - 1)
  }

  /** The table, indexed by `x * ROWS + y`: entry x * ROWS + y is entry y of column x. */
  const LUT: seq<Addr> := Table(Column, COLS)
}
