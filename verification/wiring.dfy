/**
 * A closed form of the wiring table and a decoder that inverts it. The table
 * literal stays the source of truth (LutColumns proves it equal to the closed
 * form); this module proves, for any table equal to the closed form, that it
 * and the decoder describe the same wiring, that no two channels share a
 * byte, and how the pixels split between the two driver chips.
 *
 * Each chip's display memory is a grid of 8 physical rows of 28 bytes. Logical
 * columns 0..8 are driven by the left chip, columns 9..16 by the right chip,
 * which is wired like the left chip's first eight columns. Logical row y sits
 * on physical row ROW_OF[y]; within a physical row, a chip column takes three
 * consecutive byte positions. Physical row 0 and position 0 are never used.
 */
module Wiring {
  import opened Lut

  const ROW_OF: seq<nat> := [4, 7, 5, 6, 3, 1, 2]

  /** The logical row carried by physical row `row` (the inverse of ROW_OF). */
  function LogicalRow(row: nat): (y: nat)
    requires 1 <= row <= 7
    ensures y < ROWS && ROW_OF[y] == row
  {
    match row
    case 1 => 5
    case 2 => 6
    case 3 => 4
    case 4 => 0
    case 5 => 2
    case 6 => 3
    case 7 => 1
  }

  /** Left chip for columns 0..8, right chip for columns 9..16. */
  function ChipBase(x: nat): nat
  {
    if x < 9 then 0 else CHIP_BYTES
  }

  /** Column of x within its chip. */
  function ChipColumn(x: nat): nat
  {
    if x < 9 then x else x - 9
  }

  /** Byte position (1..27) of a channel of chip column cx within a physical row. */
  function Position(cx: nat, ch: Channel): (p: nat)
    requires cx < 9
    ensures 1 <= p < 28
  {
    if cx == 0 then (match ch case Red => 27 case Green => 26 case Blue => 25)
    else if cx == 1 then (match ch case Red => 24 case Green => 23 case Blue => 22)
    else (match ch case Red => 3 * cx - 5 case Green => 3 * cx - 3 case Blue => 3 * cx - 4)
  }

  function WiredOffset(x: nat, y: nat, ch: Channel): nat
    requires x < COLS && y < ROWS
  {
    ChipBase(x) + 28 * ROW_OF[y] + Position(ChipColumn(x), ch)
  }

  /** The closed form of table entry i. */
  function Wired(i: nat): Addr
    requires i < PIXELS
  {
    var x := i / ROWS;
    var y := i % ROWS;
    Addr(WiredOffset(x, y, Red), WiredOffset(x, y, Green), WiredOffset(x, y, Blue))
  }

  /** Chip column whose channel sits at byte position pos of a physical row. */
  function PosColumn(pos: nat): nat
    requires 1 <= pos < 28
  {
    if pos >= 25 then 0 else if pos >= 22 then 1 else (pos - 1) / 3 + 2
  }

  /** Channel that sits at byte position pos of a physical row. */
  function PosChannel(pos: nat): Channel
    requires 1 <= pos < 28
  {
    var k := if pos >= 22 then (pos - 22) % 3 else (pos - 1) % 3;
    if pos >= 22 then (if k == 0 then Blue else if k == 1 then Green else Red)
    else (if k == 0 then Red else if k == 1 then Blue else Green)
  }

  /** What one byte of the combined buffer drives. */
  datatype Slot = Unused | Slot(pixel: nat, channel: Channel)

  /** The pixel and channel whose LED byte o of the combined buffer drives, if any. */
  function Decode(o: nat): Slot
  {
    if o >= BUF_LEN then Unused else DecodeAt(o / CHIP_BYTES, o % CHIP_BYTES / 28, o % 28)
  }

  /** What the byte at position pos of physical row row of chip chip drives. */
  function DecodeAt(chip: nat, row: nat, pos: nat): Slot
  {
    if row == 0 || pos == 0 || pos >= 28 || row > 7 then Unused
    else
      var x := 9 * chip + PosColumn(pos);
      if x >= COLS then Unused else Slot(x * ROWS + LogicalRow(row), PosChannel(pos))
  }

  /** Quotient and remainders of a byte offset written as chip, physical row and position. */
  lemma SplitOffset(chip: nat, row: nat, pos: nat)
    requires chip < 2 && row < 8 && pos < 28
    ensures (224 * chip + 28 * row + pos) / 224 == chip
    ensures (224 * chip + 28 * row + pos) % 224 / 28 == row
    ensures (224 * chip + 28 * row + pos) % 28 == pos
  {
  }

  /** Position and (PosColumn, PosChannel) are inverse on chip columns. */
  lemma PositionInverse(cx: nat, ch: Channel)
    requires cx < 9
    ensures PosColumn(Position(cx, ch)) == cx && PosChannel(Position(cx, ch)) == ch
  {
    if cx >= 2 {
      var q := cx - 2;
      assert Position(cx, ch) - 1 == 3 * q + (match ch case Red => 0 case Blue => 1 case Green => 2);
    }
  }

  /** Every used position belongs to some chip column and channel. */
  lemma PositionOnto(pos: nat)
    requires 1 <= pos < 28
    ensures PosColumn(pos) < 9 && Position(PosColumn(pos), PosChannel(pos)) == pos
  {
  }

  /** ROW_OF is injective, so LogicalRow undoes it. */
  lemma LogicalRowInverse(y: nat)
    requires y < ROWS
    ensures 1 <= ROW_OF[y] <= 7 && LogicalRow(ROW_OF[y]) == y
  {
  }

  /** The closed form addresses distinct bytes: decoding a wired offset gives back its pixel and channel. */
  lemma DecodeWired(x: nat, y: nat, ch: Channel)
    requires x < COLS && y < ROWS
    ensures WiredOffset(x, y, ch) < BUF_LEN
    ensures Decode(WiredOffset(x, y, ch)) == Slot(x * ROWS + y, ch)
  {
    var chip := if x < 9 then 0 else 1;
    var cx := ChipColumn(x);
    var pos := Position(cx, ch);
    LogicalRowInverse(y);
    SplitOffset(chip, ROW_OF[y], pos);
    PositionInverse(cx, ch);
    assert WiredOffset(x, y, ch) == 224 * chip + 28 * ROW_OF[y] + pos;
    assert 9 * chip + cx == x;
  }

  /** Every byte the decoder assigns to a pixel is where the closed form puts that pixel's channel. */
  lemma WiredDecode(o: nat)
    requires Decode(o).Slot?
    ensures Decode(o).pixel < PIXELS
    ensures WiredOffset(Decode(o).pixel / ROWS, Decode(o).pixel % ROWS, Decode(o).channel) == o
  {
    var chip := o / CHIP_BYTES;
    var row := o % CHIP_BYTES / 28;
    var pos := o % 28;
    OffsetParts(o);
    WiredAt(chip, row, pos);
  }

  /** The closed form puts the channel at (chip, row, pos) back at that byte. */
  lemma WiredAt(chip: nat, row: nat, pos: nat)
    requires chip < 2 && 1 <= row <= 7 && 1 <= pos < 28 && 9 * chip + PosColumn(pos) < COLS
    ensures var x, y := 9 * chip + PosColumn(pos), LogicalRow(row);
      && x * ROWS + y < PIXELS
      && (x * ROWS + y) / ROWS == x && (x * ROWS + y) % ROWS == y
      && WiredOffset(x, y, PosChannel(pos)) == CHIP_BYTES * chip + 28 * row + pos
  {
    PositionOnto(pos);
    var x, y := 9 * chip + PosColumn(pos), LogicalRow(row);
    PixelIndex(x, y);
    assert ChipBase(x) == CHIP_BYTES * chip && ChipColumn(x) == PosColumn(pos);
  }

  /** An in-range offset is chip base plus physical row plus position. */
  lemma OffsetParts(o: nat)
    requires o < BUF_LEN
    ensures o / CHIP_BYTES < 2 && o % CHIP_BYTES / 28 < 8
    ensures o == CHIP_BYTES * (o / CHIP_BYTES) + 28 * (o % CHIP_BYTES / 28) + o % 28
  {
  }

  /** Pixel index x * ROWS + y splits back into its column x and row y. */
  lemma PixelIndex(x: nat, y: nat)
    requires y < ROWS
    ensures (x * ROWS + y) / ROWS == x && (x * ROWS + y) % ROWS == y
  {
  }

  /**
   * Table t and decoder dec describe the same wiring: t has one entry per
   * logical pixel, every offset of entry i decodes to pixel i and that
   * channel, and every byte dec assigns to a pixel lies inside the combined
   * buffer and is named by that pixel's entry. The driver's table and Decode
   * are one such pair; the scatter is proved for every pair.
   */
  ghost predicate IsWiring(t: seq<Addr>, dec: nat -> Slot)
  {
    && |t| == PIXELS
    && (forall i, ch | 0 <= i < PIXELS :: dec(Offset(t[i], ch)) == Slot(i, ch))
    && (forall o: nat | dec(o).Slot? ::
          o < BUF_LEN && dec(o).pixel < PIXELS && Offset(t[dec(o).pixel], dec(o).channel) == o)
  }

  /** In a wiring, byte o is channel ch of pixel i exactly when entry i names o for ch. */
  lemma WiringAt(t: seq<Addr>, dec: nat -> Slot, o: nat, i: nat, ch: Channel)
    requires IsWiring(t, dec)
    ensures dec(o) == Slot(i, ch) <==> i < PIXELS && Offset(t[i], ch) == o
  {
  }

  /** Every offset of a wiring table lies inside the combined buffer. */
  lemma WiringBounds(t: seq<Addr>, dec: nat -> Slot, i: nat)
    requires IsWiring(t, dec) && i < PIXELS
    ensures t[i].red < BUF_LEN && t[i].green < BUF_LEN && t[i].blue < BUF_LEN
  {
    assert dec(Offset(t[i], Red)).Slot?;
    assert dec(Offset(t[i], Green)).Slot?;
    assert dec(Offset(t[i], Blue)).Slot?;
  }

  /** t agrees with the closed form entry by entry. */
  ghost predicate IsClosedForm(t: seq<Addr>)
  {
    |t| == PIXELS && forall i | 0 <= i < PIXELS :: t[i] == Wired(i)
  }

  /** A table equal to the closed form is a wiring table. */
  lemma ClosedFormIsWiring(t: seq<Addr>)
    requires IsClosedForm(t)
    ensures IsWiring(t, Decode)
  {
    forall i, ch | 0 <= i < PIXELS ensures Decode(Offset(t[i], ch)) == Slot(i, ch) {
      ClosedFormEntry(t, i, ch);
    }
    forall o: nat | Decode(o).Slot?
      ensures o < BUF_LEN && Decode(o).pixel < PIXELS && Offset(t[Decode(o).pixel], Decode(o).channel) == o
    {
      ClosedFormByte(t, o);
    }
  }

  lemma ClosedFormEntry(t: seq<Addr>, i: nat, ch: Channel)
    requires IsClosedForm(t) && i < PIXELS
    ensures Decode(Offset(t[i], ch)) == Slot(i, ch)
  {
    assert t[i] == Wired(i);
    DecodeWired(i / ROWS, i % ROWS, ch);
    PixelIndex(i / ROWS, i % ROWS);
  }

  lemma ClosedFormByte(t: seq<Addr>, o: nat)
    requires IsClosedForm(t) && Decode(o).Slot?
    ensures o < BUF_LEN && Decode(o).pixel < PIXELS && Offset(t[Decode(o).pixel], Decode(o).channel) == o
  {
    WiredDecode(o);
    assert t[Decode(o).pixel] == Wired(Decode(o).pixel);
  }

  /** No two (pixel, channel) pairs of a wiring table share a byte. */
  lemma WiringInjective(t: seq<Addr>, dec: nat -> Slot)
    requires IsWiring(t, dec)
    ensures forall i, j, a, b | 0 <= i < PIXELS && 0 <= j < PIXELS && Offset(t[i], a) == Offset(t[j], b) :: i == j && a == b
  {
    forall i, j, a, b | 0 <= i < PIXELS && 0 <= j < PIXELS && Offset(t[i], a) == Offset(t[j], b)
      ensures i == j && a == b
    {
      assert dec(Offset(t[i], a)) == Slot(i, a);
      assert dec(Offset(t[j], b)) == Slot(j, b);
    }
  }

  /** In the closed form, columns 0..8 lie in the left chip's half and columns 9..16 in the right chip's half. */
  lemma ClosedFormHalves(t: seq<Addr>)
    requires IsClosedForm(t)
    ensures forall i, ch | 0 <= i < PIXELS :: (i < 9 * ROWS <==> Offset(t[i], ch) < CHIP_BYTES)
  {
  }

  /** In the closed form, the right chip repeats the left chip's first eight columns one chip further on. */
  lemma ClosedFormMirror(t: seq<Addr>)
    requires IsClosedForm(t)
    ensures forall k, ch {:trigger Offset(t[k], ch)} | 0 <= k < PIXELS - 9 * ROWS :: Offset(t[9 * ROWS + k], ch) == Offset(t[k], ch) + CHIP_BYTES
  {
    forall k, ch {:trigger Offset(t[k], ch)} | 0 <= k < PIXELS - 9 * ROWS
      ensures Offset(t[9 * ROWS + k], ch) == Offset(t[k], ch) + CHIP_BYTES
    {
      assert (9 * ROWS + k) / ROWS == 9 + k / ROWS;
      assert (9 * ROWS + k) % ROWS == k % ROWS;
    }
  }
}
