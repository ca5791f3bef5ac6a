/**
 * The panel (`UnicornHATMini`): the logical framebuffer, the combined
 * display buffer and the two driver chips, with the operations a caller uses.
 */
module Hat {
  import opened Bytes
  import opened Lut
  import opened Wiring
  import opened LutFacts
  import opened Framebuffer
  import opened Render
  import opened Spi
  import Driver

  datatype UnicornHatMini = UnicornHatMini(disp: Grid, left: Driver.Matrix, right: Driver.Matrix, buf: Buffer)

  /** The left chip on line Ss0 owns the first half of the buffer, the right chip on Ss1 the second. */
  const LEFT: Driver.Matrix := Driver.Matrix(Ss0, 0)
  const RIGHT: Driver.Matrix := Driver.Matrix(Ss1, CHIP_BYTES)

  /** What `new` establishes and nothing afterwards changes: the chips and their offsets. */
  predicate Valid(h: UnicornHatMini)
  {
    h.left == LEFT && h.right == RIGHT
  }

  /** Initialisation packets of both chips, left first. */
  function InitBoth(): seq<Packet>
  {
    Driver.InitPackets(Ss0) + Driver.InitPackets(Ss1)
  }

  /** The panel `new` builds once both chips are up: a black framebuffer and an all-zero buffer. */
  function Initial(): (h: UnicornHatMini)
    ensures Valid(h)
    ensures forall x, y | 0 <= x < COLS && 0 <= y < ROWS :: h.disp[x][y] == BLACK
    ensures forall o | 0 <= o < BUF_LEN :: h.buf[o] == 0
  {
    UnicornHatMini(Fill(BLACK), LEFT, RIGHT, Zeroes(BUF_LEN))
  }

  /**
   * One `Matrix::new(Spi::new(..)?, offset)?` of `UnicornHATMini::new`: open
   * the chip's line, then initialise the chip.
   */
  function InitChip(bus: Bus, m: Driver.Matrix): (r: Io<Driver.Matrix>)
    ensures m.ss in bus.closed ==> r.bus == bus && r.result.Err?
    ensures m.ss !in bus.closed ==> Emits(bus, r, Driver.InitPackets(m.ss))
    ensures r.result.Ok? ==> r.result.value == m
  {
    var line := Open(bus, m.ss);
    if line.Err? then Io(bus, Err(line.error)) else Driver.New(bus, line.value, m.offset)
  }

  /**
   * `UnicornHATMini::new`: open line Ss0 and initialise the left chip, then
   * open line Ss1 and initialise the right chip; any failure is returned at
   * once. On success the framebuffer is black and the buffer all zero.
   */
  function New(bus: Bus): (r: Io<UnicornHatMini>)
    ensures SameOracle(bus, r.bus)
    ensures Ss0 in bus.closed ==> r.bus == bus && r.result.Err?
    ensures Ss0 !in bus.closed && Ss1 in bus.closed ==>
      r.bus.sent == bus.sent + Attempted(bus, Driver.InitPackets(Ss0)) && r.result.Err?
    ensures Ss0 !in bus.closed && Ss1 !in bus.closed ==> Emits(bus, r, InitBoth())
    ensures r.result.Ok? ==> r.result.value == Initial()
  {
    var l := InitChip(bus, LEFT);
    var rt := if l.result.Ok? then InitChip(l.bus, RIGHT) else l;
    NewSteps(bus, l, rt);
    if rt.result.Err? then Io(rt.bus, Err(rt.result.error))
    else Io(rt.bus, Ok(Initial()))
  }

  lemma NewSteps(bus: Bus, l: Io<Driver.Matrix>, rt: Io<Driver.Matrix>)
    requires l == InitChip(bus, LEFT)
    requires rt == if l.result.Ok? then InitChip(l.bus, RIGHT) else l
    ensures SameOracle(bus, rt.bus)
    ensures Ss0 in bus.closed ==> rt.bus == bus && rt.result.Err?
    ensures Ss0 !in bus.closed && Ss1 in bus.closed ==>
      rt.bus.sent == bus.sent + Attempted(bus, Driver.InitPackets(Ss0)) && rt.result.Err?
    ensures Ss0 !in bus.closed && Ss1 !in bus.closed ==> Emits(bus, rt, InitBoth())
  {
    if Ss0 !in bus.closed && Ss1 !in bus.closed {
      EmitsAndThen(bus, l, Driver.InitPackets(Ss0), rt, Driver.InitPackets(Ss1));
    }
  }

  /** `set_pixel`: stores c at (x, y). An index outside the grid makes the Rust driver panic. */
  function SetPixel(h: UnicornHatMini, x: nat, y: nat, c: Rgb): (r: UnicornHatMini)
    requires x < COLS && y < ROWS
    ensures r.disp[x][y] == c
    ensures forall x', y' | 0 <= x' < COLS && 0 <= y' < ROWS && (x' != x || y' != y) :: r.disp[x'][y'] == h.disp[x'][y']
    ensures r.left == h.left && r.right == h.right && r.buf == h.buf
  {
    h.(disp := h.disp[x := h.disp[x][y := c]])
  }

  /**
   * `get_pixel`: the colour stored at (x, y), which is the pixel `show` writes
   * through table entry x * ROWS + y. An index outside the grid makes the Rust driver panic.
   */
  function GetPixel(h: UnicornHatMini, x: nat, y: nat): (c: Rgb)
    requires x < COLS && y < ROWS
    ensures c == Flatten(h.disp)[x * ROWS + y]
  {
    h.disp[x][y]
  }

  /** Reading a pixel back gives what was last stored there, and storing one pixel leaves every other pixel as it was. */
  lemma GetSetPixel(h: UnicornHatMini, x: nat, y: nat, c: Rgb, x': nat, y': nat)
    requires x < COLS && y < ROWS && x' < COLS && y' < ROWS
    ensures GetPixel(SetPixel(h, x, y, c), x', y') == if x' == x && y' == y then c else GetPixel(h, x', y')
  {
  }

  /** Storing twice at the same place keeps only the second colour. */
  lemma SetPixelOverwrites(h: UnicornHatMini, x: nat, y: nat, c: Rgb, c': Rgb)
    requires x < COLS && y < ROWS
    ensures SetPixel(SetPixel(h, x, y, c), x, y, c') == SetPixel(h, x, y, c')
  {
    var twice := SetPixel(SetPixel(h, x, y, c), x, y, c');
    var once := SetPixel(h, x, y, c');
    assert twice.disp[x] == once.disp[x];
    assert twice.disp == once.disp;
  }

  /** `set_all`: every pixel becomes c; the chips and the buffer are untouched. */
  function SetAll(h: UnicornHatMini, c: Rgb): (r: UnicornHatMini)
    ensures forall x, y | 0 <= x < COLS && 0 <= y < ROWS :: r.disp[x][y] == c
    ensures r.left == h.left && r.right == h.right && r.buf == h.buf
  {
    h.(disp := Fill(c))
  }

  /** `clear`: every pixel becomes black; the chips and the buffer are untouched. */
  function Clear(h: UnicornHatMini): (r: UnicornHatMini)
    ensures forall x, y | 0 <= x < COLS && 0 <= y < ROWS :: r.disp[x][y] == BLACK
    ensures r.left == h.left && r.right == h.right && r.buf == h.buf
  {
    SetAll(h, BLACK)
  }

  /** Clearing gives back the framebuffer `new` starts with. */
  lemma ClearIsInitial(h: UnicornHatMini)
    ensures Clear(h).disp == Initial().disp
  {
    assert Clear(h).disp == Fill(BLACK);
  }

  /**
   * The buffer `show` builds: the framebuffer scattered over the previous
   * buffer, every table offset taking its pixel's channel and every other
   * byte kept.
   */
  function Frame(h: UnicornHatMini): (b: Buffer)
    ensures Rendered(LUT, h.buf, b, h.disp)
  {
    LutIsWiring();
    ScatterPlacesEveryPixel(h.buf, LUT, Decode, h.disp);
    Scatter(h.buf, LUT, Decode, Flatten(h.disp), PIXELS)
  }

  /** The two display writes of `show`: the first half of buf to the left chip, the second half to the right chip. */
  function DisplayPackets(buf: Buffer): seq<Packet>
  {
    [ Packet(Ss0, [Driver.WRITE_DISPLAY, 0x00] + buf[..CHIP_BYTES]),
      Packet(Ss1, [Driver.WRITE_DISPLAY, 0x00] + buf[CHIP_BYTES..]) ]
  }

  /**
   * Both display packets are 226 bytes, the write-display command and a zero
   * address followed by the chip's half of buf.
   */
  lemma DisplayLayout(buf: Buffer)
    ensures var ps := DisplayPackets(buf);
      && |ps| == 2 && ps[0].ss == Ss0 && ps[1].ss == Ss1
      && |ps[0].bytes| == |ps[1].bytes| == 2 + CHIP_BYTES
      && ps[0].bytes[0] == ps[1].bytes[0] == 0x80 && ps[0].bytes[1] == ps[1].bytes[1] == 0x00
      && (forall j | 0 <= j < CHIP_BYTES :: ps[0].bytes[2 + j] == buf[j])
      && (forall o | CHIP_BYTES <= o < BUF_LEN :: ps[1].bytes[2 + o - CHIP_BYTES] == buf[o])
  {
  }

  /**
   * `show`: render the framebuffer into the buffer, then send the left half to
   * the left chip and the right half to the right chip. `src/lib.rs` unwraps
   * each write, so a failed left write means the right one never happens; the
   * model returns the error where the Rust driver panics.
   */
  function Show(h: UnicornHatMini, bus: Bus): (r: Io<UnicornHatMini>)
    requires Valid(h)
    ensures Emits(bus, r, DisplayPackets(Frame(h)))
    ensures r.result.Ok? ==> r.result.value == h.(buf := Frame(h))
  {
    var frame := Frame(h);
    var l := Driver.WriteDisplay(bus, h.left, frame);
    var rt := if l.result.Ok? then Driver.WriteDisplay(l.bus, h.right, frame) else l;
    ShowSteps(bus, h, frame, l, rt);
    if rt.result.Err? then Io(rt.bus, Err(rt.result.error)) else Io(rt.bus, Ok(h.(buf := frame)))
  }

  lemma ShowSteps(bus: Bus, h: UnicornHatMini, frame: Buffer, l: Io<()>, rt: Io<()>)
    requires Valid(h)
    requires l == Driver.WriteDisplay(bus, h.left, frame)
    requires rt == if l.result.Ok? then Driver.WriteDisplay(l.bus, h.right, frame) else l
    ensures Emits(bus, rt, DisplayPackets(frame))
  {
    assert frame[0..CHIP_BYTES] == frame[..CHIP_BYTES];
    assert frame[CHIP_BYTES..CHIP_BYTES + CHIP_BYTES] == frame[CHIP_BYTES..];
    EmitsAndThen(bus, l, DisplayPackets(frame)[..1], rt, DisplayPackets(frame)[1..]);
    assert DisplayPackets(frame)[..1] + DisplayPackets(frame)[1..] == DisplayPackets(frame);
  }

  /** `set_brightness` of the panel: the same level to the left chip, then the right chip, stopping at the first failure. */
  function SetBrightness(h: UnicornHatMini, bus: Bus, brightness: real): (r: Io<()>)
    requires Valid(h)
    ensures var level := Driver.BrightnessLevel(brightness);
      Emits(bus, r, [Packet(Ss0, [0x37, level]), Packet(Ss1, [0x37, level])])
  {
    var level := Driver.BrightnessLevel(brightness);
    var l := Driver.SetBrightness(bus, h.left, brightness);
    var rt := Driver.SetBrightness(l.bus, h.right, brightness);
    EmitsAndThen(bus, l, [Packet(Ss0, [0x37, level])], rt, [Packet(Ss1, [0x37, level])]);
    AndThen(l, rt)
  }

  /** `shutdown` of the panel: the left chip's three packets, then the right chip's, stopping at the first failure. */
  function Shutdown(h: UnicornHatMini, bus: Bus): (r: Io<()>)
    requires Valid(h)
    ensures Emits(bus, r, ShutdownBoth())
  {
    var l := Driver.Shutdown(bus, h.left);
    var rt := Driver.Shutdown(l.bus, h.right);
    EmitsAndThen(bus, l, Driver.ShutdownPackets(Ss0), rt, Driver.ShutdownPackets(Ss1));
    AndThen(l, rt)
  }

  /** Shutdown packets of both chips, left first. */
  function ShutdownBoth(): seq<Packet>
  {
    Driver.ShutdownPackets(Ss0) + Driver.ShutdownPackets(Ss1)
  }

  /** Showing twice without touching the framebuffer builds the same buffer, so the same two packets go out again. */
  lemma ShowIdempotent(h: UnicornHatMini)
    requires Valid(h)
    ensures Frame(h.(buf := Frame(h))) == Frame(h)
    ensures DisplayPackets(Frame(h.(buf := Frame(h)))) == DisplayPackets(Frame(h))
  {
    LutIsWiring();
    ScatterTwice(h.buf, LUT, Decode, Flatten(h.disp));
  }

  /**
   * From a buffer whose unused bytes are zero, as `new` leaves it, `show`
   * builds a buffer that depends on the framebuffer alone and whose unused
   * bytes are still zero.
   */
  lemma ShowKeepsUnusedZero(h: UnicornHatMini)
    requires Clean(Decode, h.buf)
    ensures Frame(h) == Image(Decode, Flatten(h.disp))
    ensures Clean(Decode, Frame(h))
  {
    LutIsWiring();
    ScatterOfClean(h.buf, LUT, Decode, Flatten(h.disp));
  }

  /**
   * After `new`, `set_all(c)` and `show`, byte o of the buffer is c's channel
   * when o drives an LED and zero otherwise.
   */
  lemma ShowUniformColour(c: Rgb)
    ensures forall o | 0 <= o < BUF_LEN :: Frame(SetAll(Initial(), c))[o] == Uniform(Decode, c, o)
  {
    var h := SetAll(Initial(), c);
    var pixels := Flatten(h.disp);
    forall i | 0 <= i < PIXELS ensures pixels[i] == c {
      var x, y := i / ROWS, i % ROWS;
      assert x < COLS && i == x * ROWS + y;
      assert pixels[x * ROWS + y] == h.disp[x][y];
    }
    ShowKeepsUnusedZero(h);
    LutIsWiring();
    ImageOfUniform(LUT, Decode, pixels, c);
  }

  /**
   * The two packets `show` sends after `new` and `set_all(c)`: payload byte j
   * of the left packet is Uniform(Decode, c, j), and payload byte j of the right
   * packet is Uniform(Decode, c, CHIP_BYTES + j).
   */
  lemma ShowUniformPayload(c: Rgb)
    ensures var ps := DisplayPackets(Frame(SetAll(Initial(), c)));
      && |ps| == 2 && |ps[0].bytes| == |ps[1].bytes| == 2 + CHIP_BYTES
      && (forall j | 0 <= j < CHIP_BYTES :: ps[0].bytes[2 + j] == Uniform(Decode, c, j))
      && (forall o | CHIP_BYTES <= o < BUF_LEN :: ps[1].bytes[2 + o - CHIP_BYTES] == Uniform(Decode, c, o))
  {
    var f := Frame(SetAll(Initial(), c));
    ShowUniformColour(c);
    PayloadFollows(f, o => Uniform(Decode, c, o));
  }

  /** If every byte of buf is given by u, so is every payload byte of the two display packets. */
  lemma PayloadFollows(buf: Buffer, u: nat -> Byte)
    requires forall o | 0 <= o < BUF_LEN :: buf[o] == u(o)
    ensures var ps := DisplayPackets(buf);
      && |ps| == 2 && |ps[0].bytes| == |ps[1].bytes| == 2 + CHIP_BYTES
      && (forall j | 0 <= j < CHIP_BYTES :: ps[0].bytes[2 + j] == u(j))
      && (forall o | CHIP_BYTES <= o < BUF_LEN :: ps[1].bytes[2 + o - CHIP_BYTES] == u(o))
  {
    DisplayLayout(buf);
  }

  /** The first payload byte of each chip drives no LED, so it is zero whatever colour the panel shows. */
  lemma FirstPayloadByteZero(c: Rgb)
    ensures Uniform(Decode, c, 0) == 0 && Uniform(Decode, c, CHIP_BYTES) == 0
  {
    SplitOffset(0, 0, 0);
    SplitOffset(1, 0, 0);
  }

  /** On a bus where nothing fails, `new` sends both chips' initialisation in full and returns the initial panel. */
  lemma NewOnHealthyBus(bus: Bus)
    requires bus.faults == {} && bus.closed == {}
    ensures New(bus).result == Ok(Initial())
    ensures New(bus).bus.sent == bus.sent + InitBoth()
  {
    assert CleanRun(bus, |InitBoth()|) == |InitBoth()|;
  }

  /**
   * `shutdown` keeps no record of having run: on a bus where nothing fails a
   * second call sends all six packets again.
   */
  lemma ShutdownRepeats(h: UnicornHatMini, bus: Bus)
    requires Valid(h) && bus.faults == {}
    ensures var once := Shutdown(h, bus);
      var twice := Shutdown(h, once.bus);
      && once.result.Ok? && twice.result.Ok?
      && twice.bus.sent == bus.sent + ShutdownBoth() + ShutdownBoth()
  {
    var once := Shutdown(h, bus);
    assert CleanRun(bus, |ShutdownBoth()|) == |ShutdownBoth()|;
    assert CleanRun(once.bus, |ShutdownBoth()|) == |ShutdownBoth()|;
  }
}
