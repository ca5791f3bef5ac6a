/**
 * The SPI bus as the driver sees it: an append-only log of every transfer
 * attempted, in order, tagged with the chip-select line it went to, and an
 * oracle saying which attempts fail. The oracle stands for everything the
 * driver cannot see (the kernel's SPI device, the wiring, the chips).
 */
module Spi {
  import opened Bytes

  /** The two chip-select lines of SPI bus 0; Ss0 drives the left chip, Ss1 the right one. */
  datatype SlaveSelect = Ss0 | Ss1

  /** One `Spi::write` call: the line it went to and the bytes it carried. */
  datatype Packet = Packet(ss: SlaveSelect, bytes: seq<Byte>)

  /**
   * sent: every transfer attempted so far, failed ones included.
   * faults: the attempt numbers (positions in sent) at which a transfer fails.
   * closed: the lines whose device cannot be opened.
   */
  datatype Bus = Bus(sent: seq<Packet>, faults: set<nat>, closed: set<SlaveSelect>)

  /** `UnicornError::SPIError`, the driver's single error kind. */
  datatype UnicornError = SpiError

  datatype Result<T> = Ok(value: T) | Err(error: UnicornError)

  /** The bus after an operation, and what the operation returned. */
  datatype Io<T> = Io(bus: Bus, result: Result<T>)

  /** Both buses have the same oracle; only the log may differ. */
  predicate SameOracle(a: Bus, b: Bus)
  {
    a.faults == b.faults && a.closed == b.closed
  }

  /** `Spi::new` on one chip-select line: fails exactly when that line is closed. */
  function Open(bus: Bus, ss: SlaveSelect): (r: Result<SlaveSelect>)
    ensures r.Ok? <==> ss !in bus.closed
    ensures r.Ok? ==> r.value == ss
  {
    if ss in bus.closed then Err(SpiError) else Ok(ss)
  }

  /** One transfer (`Matrix::write`): it is logged, and it fails when the oracle says so. */
  function Write(bus: Bus, p: Packet): (r: Io<()>)
    ensures SameOracle(bus, r.bus) && r.bus.sent == bus.sent + [p]
    ensures r.result.Ok? <==> |bus.sent| !in bus.faults
    ensures Emits(bus, r, [p])
  {
    var next := bus.(sent := bus.sent + [p]);
    if |bus.sent| in bus.faults then Io(next, Err(SpiError)) else Io(next, Ok(()))
  }

  /**
   * How many of the next n transfer attempts on bus go through before the
   * first one that fails (n if none of them fails).
   */
  function CleanRun(bus: Bus, n: nat): (k: nat)
    ensures k <= n
    ensures forall a | |bus.sent| <= a < |bus.sent| + k :: a !in bus.faults
    ensures k < n ==> |bus.sent| + k in bus.faults
  {
    CleanRunFrom(|bus.sent|, n, bus.faults)
  }

  function CleanRunFrom(start: nat, n: nat, faults: set<nat>): (k: nat)
    ensures k <= n
    ensures forall a | start <= a < start + k :: a !in faults
    ensures k < n ==> start + k in faults
    decreases n
  {
    if n == 0 || start in faults then 0 else 1 + CleanRunFrom(start + 1, n - 1, faults)
  }

  /** The packets of ps that are attempted when they are sent in order and the first failure stops the rest. */
  function Attempted(bus: Bus, ps: seq<Packet>): seq<Packet>
  {
    var k := CleanRun(bus, |ps|);
    if k == |ps| then ps else ps[..k + 1]
  }

  /**
   * r is what sending ps in order with `?` after every write produces: the
   * attempted packets are logged, and the result is Ok exactly when none of
   * them failed.
   */
  predicate Emits<T>(bus: Bus, r: Io<T>, ps: seq<Packet>)
  {
    && SameOracle(bus, r.bus)
    && r.bus.sent == bus.sent + Attempted(bus, ps)
    && (r.result.Ok? <==> CleanRun(bus, |ps|) == |ps|)
  }

  /** `first?` followed by `second`: the first step's error if it failed, otherwise the second step. */
  function AndThen<T, U>(first: Io<T>, second: Io<U>): (r: Io<U>)
    ensures r.result.Ok? <==> first.result.Ok? && second.result.Ok?
    ensures first.result.Err? ==> r.bus == first.bus && r.result.error == first.result.error
    ensures first.result.Ok? ==> r == second
  {
    if first.result.Err? then Io(first.bus, Err(first.result.error)) else second
  }

  /**
   * Running two steps one after the other, the second only when the first
   * succeeds, emits the concatenation of what each emits on its own.
   */
  lemma EmitsAndThen<T, U>(bus: Bus, first: Io<T>, ps: seq<Packet>, second: Io<U>, qs: seq<Packet>)
    requires Emits(bus, first, ps)
    requires first.result.Ok? ==> Emits(first.bus, second, qs)
    ensures Emits(bus, AndThen(first, second), ps + qs)
  {
    var k := CleanRun(bus, |ps|);
    if first.result.Err? {
      assert CleanRun(bus, |ps + qs|) == k;
      assert (ps + qs)[..k + 1] == ps[..k + 1];
    } else {
      var mid := first.bus;
      var j := CleanRun(mid, |qs|);
      assert |mid.sent| == |bus.sent| + |ps|;
      assert CleanRun(bus, |ps + qs|) == |ps| + j;
      if j < |qs| {
        assert (ps + qs)[..|ps| + j + 1] == ps + qs[..j + 1];
      }
    }
  }

  /** `w.write(ps[0])?; w.write(ps[1])?; ...`: sends ps in order and stops at the first failed write. */
  function WriteAll(bus: Bus, ps: seq<Packet>): (r: Io<()>)
    ensures Emits(bus, r, ps)
    decreases |ps|
  {
    if |ps| == 0 then Io(bus, Ok(()))
    else
      var first := Write(bus, ps[0]);
      if first.result.Err? then
        EmitsFirst(bus, ps);
        first
      else
        var rest := WriteAll(first.bus, ps[1..]);
        EmitsRest(bus, ps, rest);
        rest
  }

  /** A failed first write is all that sending ps emits. */
  lemma EmitsFirst(bus: Bus, ps: seq<Packet>)
    requires |ps| > 0 && |bus.sent| in bus.faults
    ensures Emits(bus, Write(bus, ps[0]), ps)
  {
    assert CleanRun(bus, |ps|) == 0;
  }

  /** After a successful first write, sending ps emits what sending its tail emits. */
  lemma EmitsRest<T>(bus: Bus, ps: seq<Packet>, rest: Io<T>)
    requires |ps| > 0 && |bus.sent| !in bus.faults
    requires Emits(Write(bus, ps[0]).bus, rest, ps[1..])
    ensures Emits(bus, rest, ps)
  {
    var next := Write(bus, ps[0]).bus;
    assert CleanRun(bus, |ps|) == 1 + CleanRun(next, |ps| - 1);
    if CleanRun(bus, |ps|) < |ps| {
      assert ps[..CleanRun(bus, |ps|) + 1] == [ps[0]] + ps[1..][..CleanRun(next, |ps| - 1) + 1];
    } else {
      assert ps == [ps[0]] + ps[1..];
    }
  }
}
