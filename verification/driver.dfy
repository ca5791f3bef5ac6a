/**
 * One LED driver chip (`Matrix`): its command bytes and the
 * packet sequences it sends to initialise, refresh, dim and shut down.
 */
module Driver {
  import opened Bytes
  import opened Lut
  import opened Spi
  import opened Render

  /** Command bytes (`enum Cmd`). */
  const SOFT_RESET: Byte := 0xCC
  const GLOBAL_BRIGHTNESS: Byte := 0x37
  const COM_PIN_CTRL: Byte := 0x41
  const ROW_PIN_CTRL: Byte := 0x42
  const WRITE_DISPLAY: Byte := 0x80
  const SYSTEM_CTRL: Byte := 0x35
  const SCROLL_CTRL: Byte := 0x20

  /** A driver chip: its chip-select line and where its half starts in the combined buffer. */
  datatype Matrix = Matrix(ss: SlaveSelect, offset: nat)

  /** The packets `Matrix::new` writes on line ss, in order. */
  function InitPackets(ss: SlaveSelect): seq<Packet>
  {
    [ Packet(ss, [SOFT_RESET]),
      Packet(ss, [GLOBAL_BRIGHTNESS, 0x01]),
      Packet(ss, [SCROLL_CTRL, 0x00]),
      Packet(ss, [SYSTEM_CTRL, 0x00]),
      Packet(ss, [WRITE_DISPLAY, 0x00] + Zeroes(CHIP_BYTES)),
      Packet(ss, [COM_PIN_CTRL, 0xFF]),
      Packet(ss, [ROW_PIN_CTRL, 0xFF, 0xFF, 0xFF, 0xFF]),
      Packet(ss, [SYSTEM_CTRL, 0x03]) ]
  }

  /**
   * `Matrix::new`: reset the chip, configure it and blank its display; these
   * packets go out in this order, up to and including the first that fails.
   */
  function New(bus: Bus, ss: SlaveSelect, offset: nat): (r: Io<Matrix>)
    ensures Emits(bus, r, InitPackets(ss))
    ensures r.result.Ok? ==> r.result.value == Matrix(ss, offset)
  {
    var w := WriteAll(bus, InitPackets(ss));
    if w.result.Err? then Io(w.bus, Err(w.result.error)) else Io(w.bus, Ok(Matrix(ss, offset)))
  }

  /**
   * `Matrix::write_display`: one packet, `0x80 0x00` followed by the 224
   * bytes of this chip's half of the combined buffer. The slice panics unless
   * the half lies inside the buffer.
   */
  function WriteDisplay(bus: Bus, m: Matrix, buf: Buffer): (r: Io<()>)
    requires m.offset + CHIP_BYTES <= BUF_LEN
    ensures SameOracle(bus, r.bus)
    ensures |r.bus.sent| == |bus.sent| + 1 && r.bus.sent[..|bus.sent|] == bus.sent
    ensures var p := r.bus.sent[|bus.sent|];
      && p.ss == m.ss && |p.bytes| == 226
      && p.bytes[0] == 0x80 && p.bytes[1] == 0x00
      && forall j | 2 <= j < 226 :: p.bytes[j] == buf[m.offset + j - 2]
    ensures r.result.Ok? <==> |bus.sent| !in bus.faults
    ensures Emits(bus, r, [Packet(m.ss, [0x80, 0x00] + buf[m.offset..m.offset + CHIP_BYTES])])
  {
    Write(bus, Packet(m.ss, [WRITE_DISPLAY, 0x00] + buf[m.offset..m.offset + CHIP_BYTES]))
  }

  /**
   * The register value `(63_f32 * brightness) as u8`: the scaled brightness
   * truncated toward zero, with the float-to-integer cast saturating at 0 and
   * at 255. Nothing clamps the input, so a brightness of 64/63 (about 1.016)
   * or more programs a value above 63, up to 255.
   */
  function BrightnessLevel(brightness: real): (level: Byte)
    ensures 63.0 * brightness < 0.0 ==> level == 0
    ensures 0.0 <= 63.0 * brightness < 256.0 ==> level as real <= 63.0 * brightness < level as real + 1.0
    ensures 63.0 * brightness >= 256.0 ==> level == 255
  {
    var scaled := 63.0 * brightness;
    if scaled < 0.0 then 0 else if scaled >= 255.0 then 255 else scaled.Floor
  }

  /**
   * Full brightness programs 63, zero programs 0, every brightness in [0, 1]
   * stays within 0..63, and a value above 63 is programmed exactly from 64/63 on.
   */
  lemma BrightnessRange(brightness: real)
    ensures BrightnessLevel(1.0) == 63 && BrightnessLevel(0.0) == 0
    ensures 0.0 <= brightness <= 1.0 ==> BrightnessLevel(brightness) <= 63
    ensures BrightnessLevel(brightness) > 63 <==> 63.0 * brightness >= 64.0
  {
  }

  /** A brighter setting never programs a lower register value. */
  lemma BrightnessMonotone(a: real, b: real)
    requires a <= b
    ensures BrightnessLevel(a) <= BrightnessLevel(b)
  {
  }

  /** `Matrix::set_brightness`: one global-brightness packet carrying the scaled level. */
  function SetBrightness(bus: Bus, m: Matrix, brightness: real): (r: Io<()>)
    ensures Emits(bus, r, [Packet(m.ss, [0x37, BrightnessLevel(brightness)])])
  {
    Write(bus, Packet(m.ss, [GLOBAL_BRIGHTNESS, BrightnessLevel(brightness)]))
  }

  /** The packets `Matrix::shutdown` writes on line ss, in order. */
  function ShutdownPackets(ss: SlaveSelect): seq<Packet>
  {
    [ Packet(ss, [COM_PIN_CTRL, 0x00]),
      Packet(ss, [ROW_PIN_CTRL, 0x00, 0x00, 0x00, 0x00]),
      Packet(ss, [SYSTEM_CTRL, 0x00]) ]
  }

  /** `Matrix::shutdown`: column pins off, row pins off, system output off, stopping at the first failed write. */
  function Shutdown(bus: Bus, m: Matrix): (r: Io<()>)
    ensures Emits(bus, r, ShutdownPackets(m.ss))
  {
    WriteAll(bus, ShutdownPackets(m.ss))
  }
}
