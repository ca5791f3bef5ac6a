/**
 * Structural facts about the wiring table: its size, that every offset lies
 * inside the combined buffer, that no two (pixel, channel) pairs share a byte,
 * and how the pixels split between the two driver chips.
 */
module LutFacts {
  import opened Lut
  import opened Wiring
  import LutColumns

  /** Pixels 0 .. LEFT_PIXELS - 1 (logical columns 0..8) belong to the left chip. */
  const LEFT_PIXELS: nat := 9 * ROWS

  /** The driver's table is a wiring table for the panel. */
  lemma LutIsWiring()
    ensures IsWiring(LUT, Decode)
  {
    LutColumns.LutIsWired();
    ClosedFormIsWiring(LUT);
  }

  /** A byte o is driven by channel ch of pixel i exactly when the table says so. */
  lemma DecodeLut(o: nat, i: nat, ch: Channel)
    ensures |LUT| == PIXELS
    ensures Decode(o) == Slot(i, ch) <==> i < PIXELS && Offset(LUT[i], ch) == o
  {
    LutIsWiring();
    WiringAt(LUT, Decode, o, i, ch);
  }

  /** The table has one entry per logical pixel and every offset is inside the combined buffer. */
  lemma LutBounds()
    ensures |LUT| == PIXELS
    ensures forall i | 0 <= i < PIXELS :: LUT[i].red < BUF_LEN && LUT[i].green < BUF_LEN && LUT[i].blue < BUF_LEN
  {
    LutIsWiring();
    forall i | 0 <= i < PIXELS
      ensures LUT[i].red < BUF_LEN && LUT[i].green < BUF_LEN && LUT[i].blue < BUF_LEN
    {
      WiringBounds(LUT, Decode, i);
    }
  }

  /** No two (pixel, channel) pairs share a byte: all 357 offsets are pairwise distinct. */
  lemma LutInjective()
    ensures |LUT| == PIXELS
    ensures forall i, j, a, b | 0 <= i < PIXELS && 0 <= j < PIXELS && Offset(LUT[i], a) == Offset(LUT[j], b) :: i == j && a == b
  {
    LutIsWiring();
    WiringInjective(LUT, Decode);
  }

  /** Logical columns 0..8 use only the left chip's half, columns 9..16 only the right chip's half. */
  lemma LutHalves()
    ensures |LUT| == PIXELS
    ensures forall i, ch | 0 <= i < PIXELS :: (i < LEFT_PIXELS <==> Offset(LUT[i], ch) < CHIP_BYTES)
  {
    LutColumns.LutIsWired();
    ClosedFormHalves(LUT);
  }

  /** The right chip is wired like the left chip's first eight columns, shifted by one chip. */
  lemma RightMirrorsLeft()
    ensures |LUT| == PIXELS
    ensures forall k, ch {:trigger Offset(LUT[k], ch)} | 0 <= k < PIXELS - LEFT_PIXELS :: Offset(LUT[LEFT_PIXELS + k], ch) == Offset(LUT[k], ch) + CHIP_BYTES
  {
    LutColumns.LutIsWired();
    ClosedFormMirror(LUT);
  }
}
