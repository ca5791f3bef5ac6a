# unicorn_hat_mini in Dafny

A model of the Rust driver for the Pimoroni Unicorn HAT Mini: a 17 x 7 RGB
LED panel driven by two LED driver chips, each on its own chip-select line of
SPI bus 0. The model covers `src/lib.rs` except what "## Left out" lists:

- the wiring table `LUT`. It gives each of the 119 logical pixels the three
  byte offsets (red, green, blue) of its LEDs inside the combined 448-byte
  display buffer. The table is transcribed entry for entry;
- the framebuffer operations `set_pixel`, `get_pixel`, `set_all` and `clear`;
- `show`, which scatters the framebuffer into the buffer through the table in
  column-major order (pixel `(x, y)` is entry `x * 7 + y`), then sends the
  left half to the left chip and the right half to the right chip;
- the chip protocol (`Matrix`). `new`, `write_display`, `set_brightness` and
  `shutdown` are modelled as the exact packets they put on the bus;
- the panel-level `new`, `set_brightness` and `shutdown`, which run the chip
  operations left chip first and stop at the first failure (`?`).

Modules, leaves first:

| module | file | contents |
|---|---|---|
| `Bytes` | bytes.dfy | `Byte` and all-zero byte strings |
| `Lut` | lut.dfy | geometry constants and the table, one logical column per `Column(x)` |
| `Wiring` | wiring.dfy | a closed form of the table, a decoder `Decode` that inverts it, and facts about any table that equals the closed form |
| `LutColumns` | lut_columns.dfy | the transcribed table equals the closed form, proved column by column |
| `LutFacts` | lut_facts.dfy | size, bounds, distinctness and chip split of the table |
| `Framebuffer` | framebuffer.dfy | pixels, the 17 x 7 grid and its column-major enumeration |
| `Spi` | spi.dfy | the bus as an append-only packet log with a failure oracle; `?`-chaining |
| `Render` | render.dfy | the scatter loop of `show`, for any table/decoder pair that describe one wiring |
| `Driver` | driver.dfy | one driver chip (`Matrix`) and its command bytes |
| `Hat` | hat.dfy | the panel (`UnicornHATMini`) |

**The bus.** A `Bus` holds three things:

- the log of every packet whose write was attempted, tagged with its chip-select line;
- the set of attempt numbers at which a write fails;
- the set of chip-select lines whose device cannot be opened.

An operation returns the new bus and an `Ok`/`Err` result. `Spi.Emits(bus, r, ps)` is the specification shared by all operations. It says three things:

- the packets of `ps` are logged in order, up to and including the first one that fails;
- nothing else is logged;
- the result is `Ok` exactly when none of them failed.

**The closed form of the table.** Every offset is
`224 * chip + 28 * ROW_OF[y] + position(column within chip, channel)`, with
`ROW_OF = [4, 7, 5, 6, 3, 1, 2]`:

- columns 0..8 sit on the left chip;
- columns 9..16 sit on the right chip, wired like left columns 0..7.

`Decode` maps each of the 448 buffer bytes back to the pixel and channel it drives, or to `Unused`. The transcribed table is proved equal to the closed form. Bounds and distinctness of all 357 offsets are derived from that: `Decode` is a left inverse of the table.

## Model

| member | source | states |
|---|---|---|
| Lut.Column | src/lib.rs:9-127 | the transcribed table, one logical column at a time: each of the 17 columns has 7 entries and there are no others (its contents are stated by LutColumns.LutIsWired) |
| LutColumns.LutIsWired | src/lib.rs:8-128 | the transcribed table has 119 entries and entry i equals the closed form of pixel i |
| LutFacts.LutIsWiring | src/lib.rs:8-128 | the table and `Decode` describe the same wiring: each offset of entry i decodes to pixel i and that channel, and each byte that decodes to a pixel is named by that pixel's entry |
| LutFacts.DecodeLut | src/lib.rs:8-128 | byte o is channel ch of pixel i exactly when entry i names o for ch (both directions) |
| LutFacts.LutBounds | src/lib.rs:8-128 | 119 entries, and every offset is below 448, so the indexing in `show` never panics |
| LutFacts.LutInjective | src/lib.rs:8-128 | no two (pixel, channel) pairs share an offset: the 357 offsets are pairwise distinct |
| LutFacts.LutHalves | src/lib.rs:8-128 | columns 0..8 use only offsets below 224 (left chip) and columns 9..16 only offsets from 224 up (right chip) |
| LutFacts.RightMirrorsLeft | src/lib.rs:8-128 | entry 63 + k is entry k shifted by 224 in every channel |
| Wiring.DecodeWired | src/lib.rs:8-128 | decoding an offset of the closed form gives back its pixel and channel, and the offset is inside the buffer |
| Wiring.WiredDecode | src/lib.rs:8-128 | every byte the decoder assigns to a pixel is where the closed form puts that pixel's channel |
| Framebuffer.Flatten | src/lib.rs:258 | `disp.iter().flat_map(..)` enumerates pixel (x, y) at index x * 7 + y |
| Render.Put | src/lib.rs:259-265 | one pass of the loop: the blue byte holds c's blue, green and red hold theirs unless a later write hit the same offset, and every other byte is kept |
| Render.Scatter | src/lib.rs:258-266 | after the loop over pixels 0 .. n - 1, every byte that drives a written pixel's channel holds that channel, and every other byte is unchanged |
| Render.ScatterPlacesEveryPixel | src/lib.rs:258-266 | after the full loop, the three offsets of entry x * 7 + y hold the red, green and blue of pixel (x, y), and every byte no entry names keeps its old value |
| Render.RenderedUnique | src/lib.rs:258-266 | those two facts pin down every byte of the result |
| Render.ScatterTwice | src/lib.rs:258-266 | scattering the same pixels again changes nothing |
| Render.ScatterOfClean | src/lib.rs:258-266 | on a buffer whose unused bytes are zero, the result depends on the pixels alone and keeps unused bytes zero |
| Render.ImageOfUniform | src/lib.rs:258-266 | for a single-colour framebuffer, each used byte holds the colour's channel and each unused byte is 0 |
| Spi.Open | src/lib.rs:214-221 | `Spi::new` fails exactly on a line whose device cannot be opened |
| Spi.Write | src/lib.rs:171-175 | one write logs its packet and fails exactly when the oracle says so |
| Spi.CleanRunFrom | src/lib.rs:153-169 | the number of writes that succeed before the first failure: all of them succeed, and the next one fails if any are left |
| Spi.WriteAll | src/lib.rs:153-169 | a chain of `write(..)?` calls logs its packets up to and including the first failure, and is Ok exactly when none failed |
| Spi.AndThen | src/lib.rs:252-254 | `a?; b` (also in `shutdown`, lines 273-274): Ok exactly when both steps are; a failed first step is returned with its bus and error, and only after a successful first step is the second step's outcome returned |
| Spi.EmitsAndThen | src/lib.rs:251-255 | `a?; b` emits a's packets followed by b's, stopping at the first failure |
| Driver.New | src/lib.rs:153-169 | `Matrix::new` sends reset, brightness 1, scroll off, system off, a 224-byte zero display, column pins on, row pins on, system on, stopping at the first failure |
| Driver.WriteDisplay | src/lib.rs:177-185 | one 226-byte packet: `0x80 0x00` and then bytes offset .. offset + 223 of the buffer |
| Driver.BrightnessLevel | src/lib.rs:187-189 | `(63 * brightness) as u8` truncates toward zero and saturates at 0 and 255 |
| Driver.BrightnessRange | src/lib.rs:187-189 | brightness 1.0 programs 63, 0.0 programs 0, [0, 1] stays within 0..63, and a level above 63 is programmed exactly when the brightness is at least 64/63 |
| Driver.BrightnessMonotone | src/lib.rs:187-189 | a brighter setting never programs a lower register value |
| Driver.SetBrightness | src/lib.rs:187-189 | one packet `0x37 level` |
| Driver.Shutdown | src/lib.rs:191-196 | column pins off, row pins off, system off, stopping at the first failure |
| Hat.Initial | src/lib.rs:223-231 | the panel `new` builds: both chips at their offsets, an all-black framebuffer and an all-zero buffer |
| Hat.InitChip | src/lib.rs:214-221 | `Matrix::new(Spi::new(..)?, offset)?`: a closed line fails with nothing sent, otherwise the chip's init packets go out |
| Hat.New | src/lib.rs:213-232 | a closed Ss0 fails with nothing sent. A closed Ss1 fails after the left chip's init, and the left chip is not shut down. With both lines open, both chips' init packets go out, left first, stopping at the first failure. Ok returns the initial panel |
| Hat.NewOnHealthyBus | src/lib.rs:295-303 | when nothing fails, `new` sends all 16 init packets and returns a panel whose every pixel is black |
| Hat.SetPixel | src/lib.rs:235-237 | pixel (x, y) becomes c and every other pixel, the chips and the buffer are unchanged |
| Hat.GetPixel | src/lib.rs:239-241 | the colour returned for (x, y) is pixel x * 7 + y of the column-major enumeration `show` writes through the table |
| Hat.GetSetPixel | src/lib.rs:235-241 | `get_pixel` after `set_pixel` returns the stored colour at that place and the old colour elsewhere |
| Hat.SetPixelOverwrites | src/lib.rs:235-237 | storing twice at one place keeps only the second colour |
| Hat.SetAll | src/lib.rs:243-245 | every pixel becomes c, and the chips and the buffer are unchanged |
| Hat.Clear | src/lib.rs:247-249 | every pixel becomes black, and the chips and the buffer are unchanged |
| Hat.ClearIsInitial | src/lib.rs:247-249 | clearing gives back the framebuffer `new` starts with |
| Hat.SetBrightness | src/lib.rs:251-255 | one brightness packet to the left chip, then one to the right, stopping at the first failure |
| Hat.Frame | src/lib.rs:257-266 | the buffer `show` builds renders the framebuffer through the table over the previous buffer |
| Hat.DisplayLayout | src/lib.rs:268-269 | both display packets are 226 bytes: the left one carries buffer bytes 0..223, the right one 224..447 |
| Hat.Show | src/lib.rs:257-270 | render, then the left display packet, then the right one, stopping at the first failure; on success the panel keeps the new buffer |
| Hat.ShowIdempotent | src/lib.rs:257-270 | showing twice without a framebuffer change builds the same buffer and the same packets |
| Hat.ShowKeepsUnusedZero | src/lib.rs:257-270 | from a buffer whose unused bytes are zero, `show` builds a buffer that depends on the framebuffer alone and keeps unused bytes zero |
| Hat.ShowUniformColour | src/lib.rs:223-270 | after `new`, `set_all(c)` and `show`, each used byte holds c's channel and each unused byte is 0 |
| Hat.ShowUniformPayload | src/lib.rs:177-185 | the payload bytes of both packets in that scenario |
| Hat.FirstPayloadByteZero | src/lib.rs:8-128 | payload byte 0 of each chip drives no LED, so it is 0 whatever the colour |
| Hat.Shutdown | src/lib.rs:272-276 | the left chip's three shutdown packets, then the right chip's, stopping at the first failure |
| Hat.ShutdownRepeats | src/lib.rs:272-276 | `shutdown` keeps no record of having run: on a bus where nothing fails, a second call sends all six packets again |

## Left out

- The SPI transport: rppal's `Spi::new` and `Spi::write` are not modelled beyond the failure oracle. The bus number, clock speed (`spi_max_speed_hz`) and SPI mode only reach `Spi::new` and are dropped. No property depends on the bytes being delivered.
- `println!` in `Matrix::write` has no member: it is console output with no effect on the protocol.
- Driver.BrightnessLevel: computes `63 * brightness` exactly over the reals. f32 rounding of the product is not modelled, nor are NaN and the infinities, which `as u8` maps to 0 and 255.
- Hat.Show: where `src/lib.rs` unwraps a failed write and panics, the model returns the error. The packets `show` itself sends are the same either way. What follows the panic is not modelled: unwinding drops the panel, and `Drop::drop` then runs `shutdown().unwrap()`, which sends up to six more packets and aborts the process if one of those writes fails.
- Driver.WriteDisplay: a chip offset whose half runs past the buffer makes the slice in `src/lib.rs` panic. The model states this as a precondition; both chips' offsets meet it.
- Hat.SetPixel: an index outside the grid makes the Rust driver panic. The model states this as a precondition, and `GetPixel` does the same.
- `Default::default` and `Drop::drop` have no member. Both unwrap, so a failure panics. `default` is `new` with one fixed clock speed, and `drop` runs the panel `shutdown`, whose packets Hat.Shutdown and Hat.ShutdownRepeats describe. The model has no notion of a panel going out of scope.
- The `From<Cmd> for u8` conversion: the command bytes are constants of `Driver`.
- Ownership and mutation: `&mut self` methods are modelled as functions that return the new panel.
- `src/bin.rs` and the example programs are not part of this model.

Behaviour of `src/lib.rs` a caller might not expect:

- The table is indexed column-major, by `x * 7 + y`, because `show` enumerates `disp[x][y]` column by column.
- After `set_all(white)` and `show`, not every payload byte is 255: the bytes no table entry names stay 0 (Hat.ShowUniformColour), payload byte 0 of each chip among them (Hat.FirstPayloadByteZero). How many there are is counted from the table, not proved: the left chip's 9 columns use 9 * 7 * 3 = 189 of its 224 bytes and the right chip's 8 columns use 168, which leaves 35 and 56 bytes at 0.
- When the right chip fails to initialise, `new` returns the error without shutting the left chip down (Hat.New).
- `shutdown` is not idempotent: each call sends the full sequence again (Hat.ShutdownRepeats).
- `set_brightness` does not clamp its input. A brightness of 64/63 (about 1.016) or more programs a register value above 63, up to 255; anything below that, including 1.01, still programs at most 63 (Driver.BrightnessLevel, Driver.BrightnessRange).
