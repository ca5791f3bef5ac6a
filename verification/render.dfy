/**
 * The scatter step of `show`: every logical pixel's three channel bytes are
 * written into the combined buffer at the offsets its table entry names.
 * Everything here holds for any table t and decoder dec that describe the
 * same wiring (IsWiring); `show` uses the driver's table and Decode.
 */
module Render {
  import opened Bytes
  import opened Lut
  import opened Wiring
  import opened Framebuffer

  /** `[u8; 28 * 8 * 2]`: the combined display memory of both chips. */
  type Buffer = s: seq<Byte> | |s| == BUF_LEN witness seq(BUF_LEN, _ => 0)

  /**
   * One pass of the loop in `show`: writes the red, then the green, then the
   * blue byte of c at the offsets of table entry a. A later write wins where
   * two offsets coincide; every other byte is kept.
   */
  function Put(buf: Buffer, a: Addr, c: Rgb): (r: Buffer)
    requires a.red < BUF_LEN && a.green < BUF_LEN && a.blue < BUF_LEN
    ensures r[a.blue] == c.b
    ensures a.green != a.blue ==> r[a.green] == c.g
    ensures a.red != a.green && a.red != a.blue ==> r[a.red] == c.r
    ensures forall o | 0 <= o < BUF_LEN && o != a.red && o != a.green && o != a.blue :: r[o] == buf[o]
  {
    buf[a.red := c.r][a.green := c.g][a.blue := c.b]
  }

  /**
   * Reference value of byte o once pixels 0 .. n - 1 have been scattered over
   * buf: the channel of the pixel that byte drives, if that pixel has been
   * written, otherwise the byte as it was.
   */
  function Expected(buf: Buffer, dec: nat -> Slot, pixels: seq<Rgb>, n: nat, o: nat): Byte
    requires n <= |pixels| && o < BUF_LEN
  {
    match dec(o)
    case Slot(i, ch) => if i < n then Component(pixels[i], ch) else buf[o]
    case Unused => buf[o]
  }

  /** The body of the loop in `show`, run for pixel indices 0 .. n - 1 in order. */
  function Scatter(buf: Buffer, t: seq<Addr>, dec: nat -> Slot, pixels: seq<Rgb>, n: nat): (r: Buffer)
    requires IsWiring(t, dec) && n <= |pixels| && n <= PIXELS
    ensures forall o | 0 <= o < BUF_LEN :: r[o] == Expected(buf, dec, pixels, n, o)
  {
    if n == 0 then buf
    else
      var prev := Scatter(buf, t, dec, pixels, n - 1);
      WiringBounds(t, dec, n - 1);
      ScatterStep(buf, t, dec, prev, pixels, n);
      Put(prev, t[n - 1], pixels[n - 1])
  }

  /** Writing pixel n - 1 turns the reference image of n - 1 pixels into that of n pixels. */
  lemma ScatterStep(buf: Buffer, t: seq<Addr>, dec: nat -> Slot, prev: Buffer, pixels: seq<Rgb>, n: nat)
    requires IsWiring(t, dec) && 0 < n <= |pixels| && n <= PIXELS
    requires forall o | 0 <= o < BUF_LEN :: prev[o] == Expected(buf, dec, pixels, n - 1, o)
    ensures t[n - 1].red < BUF_LEN && t[n - 1].green < BUF_LEN && t[n - 1].blue < BUF_LEN
    ensures forall o | 0 <= o < BUF_LEN :: Put(prev, t[n - 1], pixels[n - 1])[o] == Expected(buf, dec, pixels, n, o)
  {
    WiringBounds(t, dec, n - 1);
    forall o | 0 <= o < BUF_LEN
      ensures Put(prev, t[n - 1], pixels[n - 1])[o] == Expected(buf, dec, pixels, n, o)
    {
      PutAt(buf, t, dec, prev, pixels, n, o);
    }
  }

  /** ScatterStep at one byte o. */
  lemma PutAt(buf: Buffer, t: seq<Addr>, dec: nat -> Slot, prev: Buffer, pixels: seq<Rgb>, n: nat, o: nat)
    requires IsWiring(t, dec) && 0 < n <= |pixels| && n <= PIXELS && o < BUF_LEN
    requires prev[o] == Expected(buf, dec, pixels, n - 1, o)
    ensures t[n - 1].red < BUF_LEN && t[n - 1].green < BUF_LEN && t[n - 1].blue < BUF_LEN
    ensures Put(prev, t[n - 1], pixels[n - 1])[o] == Expected(buf, dec, pixels, n, o)
  {
    WiringBounds(t, dec, n - 1);
    WiringAt(t, dec, o, n - 1, Red);
    WiringAt(t, dec, o, n - 1, Green);
    WiringAt(t, dec, o, n - 1, Blue);
  }

  /** True of a buffer whose bytes that drive no LED are all zero. */
  ghost predicate Clean(dec: nat -> Slot, buf: Buffer)
  {
    forall o | 0 <= o < BUF_LEN :: dec(o).Unused? ==> buf[o] == 0
  }

  /** The buffer a framebuffer renders to: each pixel's channels at its offsets, zero elsewhere. */
  function Image(dec: nat -> Slot, pixels: seq<Rgb>): Buffer
    requires |pixels| == PIXELS
  {
    seq(BUF_LEN, o requires 0 <= o < BUF_LEN => Expected(Zeroes(BUF_LEN), dec, pixels, PIXELS, o))
  }

  /**
   * after is before with the framebuffer d scattered over it through table t:
   * the three offsets of entry x * ROWS + y hold the red, green and blue of
   * pixel (x, y), and every byte no entry names is as in before.
   */
  ghost predicate Rendered(t: seq<Addr>, before: Buffer, after: Buffer, d: Grid)
  {
    && |t| == PIXELS
    && (forall x, y | 0 <= x < COLS && 0 <= y < ROWS ::
          && t[x * ROWS + y].red < BUF_LEN && after[t[x * ROWS + y].red] == d[x][y].r
          && t[x * ROWS + y].green < BUF_LEN && after[t[x * ROWS + y].green] == d[x][y].g
          && t[x * ROWS + y].blue < BUF_LEN && after[t[x * ROWS + y].blue] == d[x][y].b)
    && (forall o | 0 <= o < BUF_LEN && (forall i | 0 <= i < PIXELS :: o != t[i].red && o != t[i].green && o != t[i].blue) ::
          after[o] == before[o])
  }

  /**
   * After the full scatter, the three offsets of entry x * ROWS + y hold the
   * red, green and blue of pixel (x, y), and every byte no entry names keeps
   * its previous value.
   */
  lemma ScatterPlacesEveryPixel(buf: Buffer, t: seq<Addr>, dec: nat -> Slot, d: Grid)
    requires IsWiring(t, dec)
    ensures Rendered(t, buf, Scatter(buf, t, dec, Flatten(d), PIXELS), d)
  {
    var pixels := Flatten(d);
    var r := Scatter(buf, t, dec, pixels, PIXELS);
    forall x, y | 0 <= x < COLS && 0 <= y < ROWS
      ensures t[x * ROWS + y].red < BUF_LEN && r[t[x * ROWS + y].red] == d[x][y].r
      ensures t[x * ROWS + y].green < BUF_LEN && r[t[x * ROWS + y].green] == d[x][y].g
      ensures t[x * ROWS + y].blue < BUF_LEN && r[t[x * ROWS + y].blue] == d[x][y].b
    {
      PixelPlaced(buf, t, dec, d, x, y);
    }
    forall o | 0 <= o < BUF_LEN && (forall i | 0 <= i < PIXELS :: o != t[i].red && o != t[i].green && o != t[i].blue)
      ensures r[o] == buf[o]
    {
      if dec(o).Slot? {
        assert false;
      }
    }
  }

  /** ScatterPlacesEveryPixel for one pixel (x, y). */
  lemma PixelPlaced(buf: Buffer, t: seq<Addr>, dec: nat -> Slot, d: Grid, x: nat, y: nat)
    requires IsWiring(t, dec) && x < COLS && y < ROWS
    ensures var a, r := t[x * ROWS + y], Scatter(buf, t, dec, Flatten(d), PIXELS);
      && a.red < BUF_LEN && r[a.red] == d[x][y].r
      && a.green < BUF_LEN && r[a.green] == d[x][y].g
      && a.blue < BUF_LEN && r[a.blue] == d[x][y].b
  {
    var i := x * ROWS + y;
    assert Flatten(d)[i] == d[x][y];
    WiringBounds(t, dec, i);
    WiringAt(t, dec, t[i].red, i, Red);
    WiringAt(t, dec, t[i].green, i, Green);
    WiringAt(t, dec, t[i].blue, i, Blue);
  }

  /** Byte o of any rendering is the reference value the scatter defines. */
  lemma RenderedAt(t: seq<Addr>, dec: nat -> Slot, before: Buffer, after: Buffer, d: Grid, o: nat)
    requires IsWiring(t, dec) && Rendered(t, before, after, d) && o < BUF_LEN
    ensures after[o] == Expected(before, dec, Flatten(d), PIXELS, o)
  {
    match dec(o)
    case Slot(i, ch) =>
      WiringAt(t, dec, o, i, ch);
      var x, y := i / ROWS, i % ROWS;
      PixelIndex(x, y);
      assert Flatten(d)[i] == d[x][y];
    case Unused =>
      forall i | 0 <= i < PIXELS ensures o != t[i].red && o != t[i].green && o != t[i].blue {
        WiringAt(t, dec, o, i, Red);
        WiringAt(t, dec, o, i, Green);
        WiringAt(t, dec, o, i, Blue);
      }
  }

  /**
   * A rendering is determined by the table, the framebuffer and the previous
   * buffer: Rendered pins down every byte.
   */
  lemma RenderedUnique(t: seq<Addr>, dec: nat -> Slot, before: Buffer, a: Buffer, b: Buffer, d: Grid)
    requires IsWiring(t, dec) && Rendered(t, before, a, d) && Rendered(t, before, b, d)
    ensures a == b
  {
    forall o | 0 <= o < BUF_LEN ensures a[o] == b[o] {
      RenderedAt(t, dec, before, a, d, o);
      RenderedAt(t, dec, before, b, d, o);
    }
  }

  /**
   * On a buffer whose unused bytes are zero (as after construction), the
   * scatter result depends on the pixels alone and keeps the unused bytes zero.
   */
  lemma ScatterOfClean(buf: Buffer, t: seq<Addr>, dec: nat -> Slot, pixels: seq<Rgb>)
    requires IsWiring(t, dec) && |pixels| == PIXELS && Clean(dec, buf)
    ensures Scatter(buf, t, dec, pixels, PIXELS) == Image(dec, pixels)
    ensures Clean(dec, Image(dec, pixels))
  {
    var r := Scatter(buf, t, dec, pixels, PIXELS);
    forall o | 0 <= o < BUF_LEN ensures r[o] == Image(dec, pixels)[o] {
    }
  }

  /** Scattering the same pixels a second time changes nothing. */
  lemma ScatterTwice(buf: Buffer, t: seq<Addr>, dec: nat -> Slot, pixels: seq<Rgb>)
    requires IsWiring(t, dec) && |pixels| == PIXELS
    ensures var once := Scatter(buf, t, dec, pixels, PIXELS);
      Scatter(once, t, dec, pixels, PIXELS) == once
  {
    var once := Scatter(buf, t, dec, pixels, PIXELS);
    var twice := Scatter(once, t, dec, pixels, PIXELS);
    forall o | 0 <= o < BUF_LEN ensures twice[o] == once[o] {
    }
  }

  /** What byte o holds when every pixel shows the colour c and unused bytes are zero. */
  function Uniform(dec: nat -> Slot, c: Rgb, o: nat): Byte
  {
    match dec(o)
    case Slot(_, ch) => Component(c, ch)
    case Unused => 0
  }

  /** The image of a single-colour framebuffer is Uniform at every byte. */
  lemma ImageOfUniform(t: seq<Addr>, dec: nat -> Slot, pixels: seq<Rgb>, c: Rgb)
    requires IsWiring(t, dec) && |pixels| == PIXELS && forall i | 0 <= i < PIXELS :: pixels[i] == c
    ensures forall o | 0 <= o < BUF_LEN :: Image(dec, pixels)[o] == Uniform(dec, c, o)
  {
    forall o | 0 <= o < BUF_LEN ensures Image(dec, pixels)[o] == Uniform(dec, c, o) {
      assert Image(dec, pixels)[o] == Expected(Zeroes(BUF_LEN), dec, pixels, PIXELS, o);
      if dec(o).Slot? {
        assert dec(o).pixel < PIXELS;
      }
    }
  }
}
