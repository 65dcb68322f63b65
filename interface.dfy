/** The two bus transports of the driver: how a register read or write
    becomes bytes on an I2C or an SPI bus.

    The external bus is a `Bus` object that records every transaction it is
    asked to perform, in order, and answers each one from an oracle fixed at
    construction: `fault(n)` says whether transaction number `n` fails (and
    with which bus error), `incoming(n, k)` is the `k`-th byte the device
    sends back during transaction `n`. */
module Interface {

  datatype Option<+T> = None | Some(value: T)

  /** The error reported by the external bus; opaque to the driver. */
  datatype BusError = BusError(code: int)

  /** The driver's error type. Only `Comm` is produced by the core. */
  datatype Error = Comm(cause: BusError) | InvalidInputData

  datatype Result<+T> = Ok(value: T) | Err(error: Error)

  /** `bus_call.map_err(Error::Comm).and(Ok(value))`. */
  function Outcome<T>(fault: Option<BusError>, value: T): Result<T> {
    match fault
    case None => Ok(value)
    case Some(e) => Err(Comm(e))
  }

  /** One transaction as the bus sees it: what the driver sends. */
  datatype Txn =
    | I2cWrite(address: bv8, bytes: seq<bv8>)
    | I2cWriteRead(address: bv8, bytes: seq<bv8>, readLen: nat)
    | SpiWrite(bytes: seq<bv8>)
    | SpiTransfer(bytes: seq<bv8>)

  /** The external bus: an I2C bus or an SPI device, logging what it is asked. */
  class Bus {
    var log: seq<Txn>
    const fault: nat -> Option<BusError>
    const incoming: (nat, nat) -> bv8

    constructor (fault: nat -> Option<BusError>, incoming: (nat, nat) -> bv8)
      ensures log == [] && this.fault == fault && this.incoming == incoming
    {
      log := [];
      this.fault := fault;
      this.incoming := incoming;
    }

    /** The first `len` bytes received during transaction `n`. */
    function Received(n: nat, len: nat): (rx: seq<bv8>)
      ensures |rx| == len
      ensures forall k | 0 <= k < len :: rx[k] == incoming(n, k)
    {
      seq(len, (k: int) requires 0 <= k < len => incoming(n, k))
    }

    /** I2C `write(address, bytes)`. */
    method Write(address: bv8, bytes: seq<bv8>) returns (e: Option<BusError>)
      modifies this
      ensures log == old(log) + [I2cWrite(address, bytes)]
      ensures e == fault(old(|log|))
    {
      e := fault(|log|);
      log := log + [I2cWrite(address, bytes)];
    }

    /** I2C `write_read(address, bytes, &mut buffer[lo..hi])`; on failure the
        buffer is left as it was. */
    method WriteRead(address: bv8, bytes: seq<bv8>, buffer: array<bv8>, lo: nat, hi: nat)
      returns (e: Option<BusError>)
      requires lo <= hi <= buffer.Length
      modifies this, buffer
      ensures log == old(log) + [I2cWriteRead(address, bytes, hi - lo)]
      ensures e == fault(old(|log|))
      ensures buffer[..lo] == old(buffer[..lo]) && buffer[hi..] == old(buffer[hi..])
      ensures buffer[lo..hi] == if e.None? then Received(old(|log|), hi - lo) else old(buffer[lo..hi])
    {
      var n := |log|;
      e := fault(n);
      if e.None? {
        forall k | lo <= k < hi {
          buffer[k] := incoming(n, k - lo);
        }
      }
      log := log + [I2cWriteRead(address, bytes, hi - lo)];
    }

    /** SPI `write(bytes)`. */
    method WriteSpi(bytes: seq<bv8>) returns (e: Option<BusError>)
      modifies this
      ensures log == old(log) + [SpiWrite(bytes)]
      ensures e == fault(old(|log|))
    {
      e := fault(|log|);
      log := log + [SpiWrite(bytes)];
    }

    /** SPI `transfer_in_place(buffer)`: the bytes of `buffer` go out and the
        bytes received replace them; on failure the buffer is left as it was. */
    method TransferInPlace(buffer: array<bv8>) returns (e: Option<BusError>)
      modifies this, buffer
      ensures log == old(log) + [SpiTransfer(old(buffer[..]))]
      ensures e == fault(old(|log|))
      ensures buffer[..] == if e.None? then Received(old(|log|), buffer.Length) else old(buffer[..])
    {
      var n := |log|;
      e := fault(n);
      log := log + [SpiTransfer(buffer[..])];
      if e.None? {
        forall k | 0 <= k < buffer.Length {
          buffer[k] := incoming(n, k);
        }
      }
    }
  }

  /** The address byte of an SPI write, `register + 0x80` in `u8`
      arithmetic: for a register below 0x80 it is the register with bit 7
      set, the device's mark for a write. */
  function SpiWriteAddress(register: bv8): (a: bv8)
    ensures register < 0x80 ==> a & 0x80 == 0x80 && a & 0x7F == register
    ensures register < 0x80 ==> a != register
  {
    register + 0x80
  }

  /** The two boundary addresses of the 7-bit register space. */
  lemma SpiWriteAddressBoundaries()
    ensures SpiWriteAddress(0x00) == 0x80 && SpiWriteAddress(0x7F) == 0xFF
  {
  }

  /** The I2C transport: addressed writes and write-then-read transfers to
      the device at `address` (the crate's `DEVICE_ADDRESS`). */
  class I2cInterface {
    const i2c: Bus
    const address: bv8

    constructor (i2c: Bus, address: bv8)
      ensures this.i2c == i2c && this.address == address
    {
      this.i2c := i2c;
      this.address := address;
    }

    /** One bus write of `[register, data]`; the address goes out unchanged. */
    method WriteRegister(register: bv8, data: bv8) returns (r: Result<()>)
      modifies i2c
      ensures i2c.log == old(i2c.log) + [I2cWrite(address, [register, data])]
      ensures r == Outcome(i2c.fault(old(|i2c.log|)), ())
    {
      var payload := [register, data];
      var e := i2c.Write(address, payload);
      r := Outcome(e, ());
    }

    /** One bus write of the whole payload, whose first byte is the start address. */
    method WriteData(payload: array<bv8>) returns (r: Result<()>)
      modifies i2c
      ensures i2c.log == old(i2c.log) + [I2cWrite(address, payload[..])]
      ensures r == Outcome(i2c.fault(old(|i2c.log|)), ())
    {
      var e := i2c.Write(address, payload[..]);
      r := Outcome(e, ());
    }

    /** Writes `[register]`, reads one byte back and returns it. */
    method ReadRegister(register: bv8) returns (r: Result<bv8>)
      modifies i2c
      ensures i2c.log == old(i2c.log) + [I2cWriteRead(address, [register], 1)]
      ensures r == Outcome(i2c.fault(old(|i2c.log|)), i2c.incoming(old(|i2c.log|), 0))
    {
      var data := new bv8[] [0];
      var e := i2c.WriteRead(address, [register], data, 0, 1);
      r := Outcome(e, data[0]);
    }

    /** Sends only `payload[0]` (the start address) and reads the remaining
        `payload.Length - 1` bytes into `payload[1..]`. */
    method ReadData(payload: array<bv8>) returns (r: Result<()>)
      requires payload.Length >= 1
      modifies i2c, payload
      ensures i2c.log == old(i2c.log) + [I2cWriteRead(address, [old(payload[0])], payload.Length - 1)]
      ensures r == Outcome(i2c.fault(old(|i2c.log|)), ())
      ensures payload[0] == old(payload[0])
      ensures payload[1..] ==
        if r.Ok? then i2c.Received(old(|i2c.log|), payload.Length - 1) else old(payload[1..])
    {
      var len := payload.Length;
      var e := i2c.WriteRead(address, [payload[0]], payload, 1, len);
      r := Outcome(e, ());
    }
  }

  /** The SPI transport: writes mark the address with bit 7, reads are
      full-duplex exchanges in place. */
  class SpiInterface {
    const spi: Bus

    constructor (spi: Bus)
      ensures this.spi == spi
    {
      this.spi := spi;
    }

    /** One bus write of `[register + 0x80, data]`. */
    method WriteRegister(register: bv8, data: bv8) returns (r: Result<()>)
      requires register < 0x80
      modifies spi
      ensures spi.log == old(spi.log) + [SpiWrite([SpiWriteAddress(register), data])]
      ensures r == Outcome(spi.fault(old(|spi.log|)), ())
    {
      var payload := [SpiWriteAddress(register), data];
      var e := spi.WriteSpi(payload);
      r := Outcome(e, ());
    }

    /** Adds 0x80 to the start address in the caller's buffer, then writes
        the buffer; the buffer keeps the marked address even if the write fails. */
    method WriteData(payload: array<bv8>) returns (r: Result<()>)
      requires payload.Length >= 1 && payload[0] < 0x80
      modifies spi, payload
      ensures payload[0] == SpiWriteAddress(old(payload[0]))
      ensures payload[1..] == old(payload[1..])
      ensures spi.log == old(spi.log) + [SpiWrite(payload[..])]
      ensures r == Outcome(spi.fault(old(|spi.log|)), ())
    {
      payload[0] := SpiWriteAddress(payload[0]);
      var e := spi.WriteSpi(payload[..]);
      r := Outcome(e, ());
    }

    /** Exchanges `[register, 0]`, the address going out unmarked, and returns
        the byte received second. */
    method ReadRegister(register: bv8) returns (r: Result<bv8>)
      modifies spi
      ensures spi.log == old(spi.log) + [SpiTransfer([register, 0])]
      ensures r == Outcome(spi.fault(old(|spi.log|)), spi.incoming(old(|spi.log|), 1))
    {
      var data := new bv8[] [register, 0];
      assert data[..] == [register, 0];
      var e := spi.TransferInPlace(data);
      r := Outcome(e, data[1]);
    }

    /** Exchanges the whole buffer in place; its first byte, the start
        address, goes out unmarked. */
    method ReadData(payload: array<bv8>) returns (r: Result<()>)
      modifies spi, payload
      ensures spi.log == old(spi.log) + [SpiTransfer(old(payload[..]))]
      ensures r == Outcome(spi.fault(old(|spi.log|)), ())
      ensures payload[..] ==
        if r.Ok? then spi.Received(old(|spi.log|), payload.Length) else old(payload[..])
    {
      var e := spi.TransferInPlace(payload);
      r := Outcome(e, ());
    }
  }

  /** The interface a device is built over; the driver is generic over it. */
  datatype Iface = I2c(i2cIface: I2cInterface) | Spi(spiIface: SpiInterface)
  {
    /** The external bus underneath. */
    function Handle(): Bus {
      match this
      case I2c(i) => i.i2c
      case Spi(s) => s.spi
    }

    /** What a register write puts on the wire. */
    function WriteRegisterTxn(register: bv8, data: bv8): Txn {
      match this
      case I2c(i) => I2cWrite(i.address, [register, data])
      case Spi(_) => SpiWrite([SpiWriteAddress(register), data])
    }

    /** What a register read puts on the wire. */
    function ReadRegisterTxn(register: bv8): Txn {
      match this
      case I2c(i) => I2cWriteRead(i.address, [register], 1)
      case Spi(_) => SpiTransfer([register, 0])
    }

    /** The byte a register read answered as transaction `n` returns. */
    function ReadRegisterValue(n: nat): bv8 {
      match this
      case I2c(i) => i.i2c.incoming(n, 0)
      case Spi(s) => s.spi.incoming(n, 1)
    }

    /** What a multi-byte read of the buffer `sent` puts on the wire. */
    function ReadDataTxn(sent: seq<bv8>): Txn
      requires |sent| >= 1
    {
      match this
      case I2c(i) => I2cWriteRead(i.address, [sent[0]], |sent| - 1)
      case Spi(_) => SpiTransfer(sent)
    }

    /** The buffer after a successful multi-byte read answered as transaction `n`. */
    function ReadDataReply(sent: seq<bv8>, n: nat): (reply: seq<bv8>)
      requires |sent| >= 1
      ensures |reply| == |sent|
    {
      match this
      case I2c(i) => [sent[0]] + i.i2c.Received(n, |sent| - 1)
      case Spi(s) => s.spi.Received(n, |sent|)
    }

    method WriteRegister(register: bv8, data: bv8) returns (r: Result<()>)
      requires Spi? ==> register < 0x80
      modifies Handle()
      ensures Handle().log == old(Handle().log) + [WriteRegisterTxn(register, data)]
      ensures r == Outcome(Handle().fault(old(|Handle().log|)), ())
    {
      match this
      case I2c(i) => r := i.WriteRegister(register, data);
      case Spi(s) => r := s.WriteRegister(register, data);
    }

    method ReadRegister(register: bv8) returns (r: Result<bv8>)
      modifies Handle()
      ensures Handle().log == old(Handle().log) + [ReadRegisterTxn(register)]
      ensures r == Outcome(Handle().fault(old(|Handle().log|)), ReadRegisterValue(old(|Handle().log|)))
    {
      match this
      case I2c(i) => r := i.ReadRegister(register);
      case Spi(s) => r := s.ReadRegister(register);
    }

    method ReadData(payload: array<bv8>) returns (r: Result<()>)
      requires payload.Length >= 1
      modifies Handle(), payload
      ensures Handle().log == old(Handle().log) + [ReadDataTxn(old(payload[..]))]
      ensures r == Outcome(Handle().fault(old(|Handle().log|)), ())
      ensures payload[..] ==
        if r.Ok? then ReadDataReply(old(payload[..]), old(|Handle().log|)) else old(payload[..])
    {
      match this
      case I2c(i) =>
        r := i.ReadData(payload);
        assert payload[..] == [payload[0]] + payload[1..];
        assert old(payload[..]) == [old(payload[0])] + old(payload[1..]);
      case Spi(s) =>
        r := s.ReadData(payload);
    }
  }
}
