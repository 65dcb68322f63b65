# ds323x register core in Dafny

This project models the register-level core of the `ds323x` driver for the
DS3231/DS3232/DS3234 real-time clocks. It has two parts.

**Transport framing.** The I2C and SPI interfaces turn a register read or
write into transactions on an external bus.
- `Interface.Bus` stands in for the bus. It logs every transaction it is
  asked for, in order.
- A fault oracle says which transactions fail. An incoming-byte oracle gives
  the bytes the device sends back.
- Each transport method states the exact transaction it issues. It also
  states what it returns: the received byte or buffer, or `Comm(e)` when the
  bus reports `e`.

**The `Ds323x` shadow-register state machine.**
- The device object (`Device.Ds323x`) keeps in-memory shadows of CONTROL
  and STATUS.
- Its configuration operations compute a new byte from a shadow, write it,
  and update the shadow only when the write succeeds.
- Status writes always force both alarm-matched flags to 1 in the byte
  actually sent (`write_status_without_clearing_alarm`).
- Diagnostic reads (`running`, `busy`, the alarm flags, `aging_offset`,
  `temperature`) go to the hardware and never touch the shadows.

Each operation's new-byte computation is a pure function. Lemmas prove its
effect per bit, its idempotence, and that it keeps the alarm bits clear.

**Layout constants.** The numeric values of the register addresses, the bit
flags, `DEVICE_ADDRESS` and `CONTROL_POR_VALUE` are not part of this model.
They travel as a `Registers.Chip` value, and every result holds for every
layout satisfying `Chip.Valid()`:
- each flag is a single bit;
- the flags of one register are pairwise distinct;
- every register address is below 0x80.

**Precedence.** In Rust, `&` binds tighter than `|`. The 4.096 kHz square-wave
expression is therefore `control | RS2`, and it does not clear RS1. The 256 s
conversion-rate expression likewise does not clear CRATE0. The model keeps
these expressions as written, and its lemmas state what they actually do
(`SquareWave4096Hz`, `SquareWave4096After1024`, `ConversionRate256s`,
`ConversionRate256After128`).

**Temperature.** The temperature is modelled as an integer count of quarter
degrees Celsius. The code decodes TEMP_MSB = 0xE3, TEMP_LSB = 0x00 to -116
quarters (-29.00 °C), because 0xE3 read as a signed byte is -29
(`Status.DecodeTemperatureExamples`).

**Modules.**
- `Registers`: layout constants, flag arithmetic (`SetFlag`, `ClearFlag`),
  and the `i8`/`u8` conversions (`AsU8`, `AsI8`).
- `Interface`: the bus and the two transports. `Outcome` models
  `map_err(Error::Comm)` followed by `and(Ok(value))`.
- `Device`: the `Ds323x` class and its two primitive writes. `AlarmPreserving`
  is the byte `write_status_without_clearing_alarm` sends.
- `Configuration`: `configuration.rs`. `SquareWaveControl` is the literal
  `match` of `set_square_wave_frequency` (configuration.rs:106-111).
- `Status`: `status.rs`. `Alarm1Clearing` and `Alarm2Clearing` are the bytes
  the `clear_alarmN_matched_flag` calls write (status.rs:70, 87).
  `DecodeTemperature` is the decode of `temperature` (status.rs:98-105).
- `Extended`: the STATUS operations that `ds3232.rs` and `ds3234.rs` define
  identically, modelled once here. `StatusPorValue` is `STATUS_POR_VALUE`
  (ds3232.rs:31). `ConversionRateStatus` is the literal `match` of
  `set_temperature_conversion_rate` (ds3232.rs:75-80).
- `Ds3232` and `Ds3234`: the constructors and the DS3234's TEMP_CONV register.

The byte-computing functions have no contract of their own. The lemmas
named in the table below state their properties.

## Model

| member | source | states |
|---|---|---|
| Interface.I2cInterface.WriteRegister | src/interface.rs:59-65 | exactly one bus write to the device address whose bytes are `[register, data]`, untransformed; the result is `Ok` or `Comm` of that write's bus error |
| Interface.I2cInterface.WriteData | src/interface.rs:67-72 | exactly one bus write of the whole payload to the device address; bus errors map to `Comm` |
| Interface.I2cInterface.ReadRegister | src/interface.rs:118-125 | one write_read that sends `[register]` and reads one byte; returns that byte, or `Comm(e)` on failure |
| Interface.I2cInterface.ReadData | src/interface.rs:127-133 | one write_read that sends only `payload[0]` and reads `len - 1` bytes into `payload[1..]`; `payload[0]` is unchanged; on failure the buffer is unchanged and `Comm` is returned |
| Interface.SpiInterface.WriteRegister | src/interface.rs:84-87 | for a register below 0x80, exactly one SPI write of `[register + 0x80, data]`; bus errors map to `Comm` |
| Interface.SpiInterface.WriteData | src/interface.rs:89-92 | adds 0x80 to `payload[0]` in the caller's buffer, keeps the other bytes, then writes the whole buffer in one SPI write |
| Interface.SpiInterface.ReadRegister | src/interface.rs:145-153 | one full-duplex transfer of `[register, 0]`, with the address not marked; returns the byte received second, or `Comm(e)` |
| Interface.SpiInterface.ReadData | src/interface.rs:155-160 | one full-duplex transfer of the whole buffer as it was, with no address marking; on success the buffer holds the received bytes, on failure it is unchanged |
| Interface.SpiWriteAddress | src/interface.rs:85 | for a register below 0x80, the write address has bit 7 set, differs from the register, and its low seven bits are the register |
| Interface.SpiWriteAddressBoundaries | src/interface.rs:85 | the register space 0x00..0x7F maps to write addresses 0x80..0xFF |
| Interface.Iface.WriteRegister | src/interface.rs:59-87 | the device's register write issues the transport's framed write transaction and maps its bus error to `Comm` |
| Interface.Iface.ReadRegister | src/interface.rs:118-153 | the device's register read issues the transport's framed read and returns the transport's received byte or `Comm` |
| Interface.Iface.ReadData | src/interface.rs:127-160 | the device's multi-byte read issues the transport's framed read; on success the buffer is the transport's reply, on failure it is unchanged |
| Registers.SetFlag | src/ds323x/configuration.rs:35-38 | `shadow OR FLAG` sets every bit of the flag and leaves every other bit as it was |
| Registers.ClearFlag | src/ds323x/configuration.rs:29-32 | `shadow AND NOT FLAG` clears every bit of the flag and leaves every other bit as it was |
| Registers.StepFlag | src/ds323x/configuration.rs:29-137 | one set or clear call on a flag leaves every other bit as it was |
| Registers.FlagUpdatesIdempotent | src/ds323x/configuration.rs:29-137 | setting a flag twice gives the same byte as setting it once; the same holds for clearing |
| Registers.FlagWritesKeepOthers | src/ds323x/configuration.rs:29-137 | any run of set and clear calls on one flag leaves every other bit of the shadow as it was |
| Registers.LastFlagWriteWins | src/ds323x/configuration.rs:29-137 | after any non-empty run of set and clear calls on one flag, the flag is set if the last call was a set, and clear if it was a clear |
| Registers.FieldExprsKeepOthers | src/ds323x/configuration.rs:107-110 | each of the four two-bit-field expressions leaves the six bits outside the field as they were |
| Registers.FieldExprClear | src/ds323x/configuration.rs:107 | `c AND NOT HI AND NOT LO` makes the field 00 and keeps the other bits |
| Registers.FieldExprLo | src/ds323x/configuration.rs:108 | for disjoint HI, LO, `(c AND NOT HI) OR LO` makes the field 01 and keeps the other bits |
| Registers.FieldExprHi | src/ds323x/configuration.rs:109 | for disjoint HI, LO, `c OR (HI AND NOT LO)` sets HI, keeps the other bits, and leaves LO as it was in `c`, not 0 |
| Registers.FieldExprBoth | src/ds323x/configuration.rs:110 | `c OR HI OR LO` makes the field 11 and keeps the other bits |
| Registers.AsU8 | src/ds323x/configuration.rs:69 | `offset as u8` is the two's-complement byte, whose value is the offset modulo 256 |
| Registers.AsI8 | src/ds323x/configuration.rs:76 | `byte as i8` agrees with the byte modulo 256 and is negative exactly when bit 7 is set |
| Registers.SignedByteRoundTrip | src/ds323x/configuration.rs:67-77 | the `i8 -> u8 -> i8` round trip returns the offset, so `aging_offset` reads back what `set_aging_offset` wrote |
| Registers.UnsignedByteRoundTrip | src/ds323x/configuration.rs:67-77 | the `u8 -> i8 -> u8` round trip returns the byte |
| Device.AlarmPreserving | src/ds323x/configuration.rs:152 | the byte sent has both ALARM1F and ALARM2F set, and every other bit as requested |
| Device.Ds323x.constructor | src/ds3232.rs:32-37 | the struct literal holds the given interface, chip and shadows |
| Device.Ds323x.WriteControl | src/ds323x/configuration.rs:139-145 | one CONTROL write of the value; the control shadow becomes the value on success and is unchanged on failure; the status shadow never moves |
| Device.Ds323x.WriteStatusWithoutClearingAlarm | src/ds323x/configuration.rs:147-158 | one STATUS write of the alarm-preserving byte; on success the shadow takes the requested value, not the byte sent; on failure it is unchanged; a shadow without alarm flags stays so when the request has none |
| Configuration.Enable | src/ds323x/configuration.rs:29-32 | writes CONTROL with EOSC cleared and every other shadow bit kept, through the shadow-updating write |
| Configuration.Disable | src/ds323x/configuration.rs:35-38 | writes CONTROL with EOSC set and the other bits kept, through the shadow-updating write |
| Configuration.ConvertTemperature | src/ds323x/configuration.rs:43-52 | reads CONTROL live; a failed read returns `Comm` with no write; if TEMP_CONV is set it issues no write and returns `Ok`; otherwise it writes the live byte with TEMP_CONV set and returns that write's outcome; neither shadow changes |
| Configuration.Enable32khzOutput | src/ds323x/configuration.rs:55-58 | requests the status shadow with EN32KHZ set through the alarm-preserving write; a shadow clear of alarm flags stays clear |
| Configuration.Disable32khzOutput | src/ds323x/configuration.rs:61-64 | requests the status shadow with EN32KHZ cleared through the alarm-preserving write; alarm-clear shadow preserved |
| Configuration.SetAgingOffset | src/ds323x/configuration.rs:67-71 | one write of the offset's two's-complement byte to AGING_OFFSET; no shadow changes |
| Configuration.AgingOffset | src/ds323x/configuration.rs:74-77 | one live read of AGING_OFFSET returning the byte as `i8`, or `Comm` |
| Configuration.UseIntSqwOutputAsInterrupt | src/ds323x/configuration.rs:80-83 | CONTROL written with INTCN set and other bits kept; the shadow follows only on success |
| Configuration.UseIntSqwOutputAsSquareWave | src/ds323x/configuration.rs:86-89 | CONTROL written with INTCN cleared and other bits kept; the shadow follows only on success |
| Configuration.EnableSquareWave | src/ds323x/configuration.rs:93-96 | CONTROL written with BBSQW set and other bits kept |
| Configuration.DisableSquareWave | src/ds323x/configuration.rs:99-102 | CONTROL written with BBSQW cleared and other bits kept |
| Configuration.SetSquareWaveFrequency | src/ds323x/configuration.rs:105-113 | CONTROL written with the frequency's RS2:RS1 expression applied to the shadow; the shadow follows only on success |
| Configuration.SquareWave1Hz | src/ds323x/configuration.rs:107 | 1 Hz gives RS2:RS1 = 00 and keeps every other CONTROL bit |
| Configuration.SquareWave1024Hz | src/ds323x/configuration.rs:108 | 1.024 kHz gives RS2:RS1 = 01 and keeps every other CONTROL bit |
| Configuration.SquareWave4096Hz | src/ds323x/configuration.rs:109 | 4.096 kHz sets RS2 and keeps the other bits, but RS1 keeps its previous value, where the table asks for 10 |
| Configuration.SquareWave8192Hz | src/ds323x/configuration.rs:110 | 8.192 kHz gives RS2:RS1 = 11 and keeps every other CONTROL bit |
| Configuration.SquareWave4096After1024 | src/ds323x/configuration.rs:108-109 | choosing 4.096 kHz after 1.024 kHz leaves RS2:RS1 = 11 (8.192 kHz) |
| Configuration.SquareWaveIdempotent | src/ds323x/configuration.rs:106-111 | `SquareWaveControl`: choosing the same frequency twice gives the same control byte as choosing it once |
| Configuration.EnableAlarm1Interrupts | src/ds323x/configuration.rs:116-119 | CONTROL written with A1IE set and other bits kept |
| Configuration.DisableAlarm1Interrupts | src/ds323x/configuration.rs:122-125 | CONTROL written with A1IE cleared and other bits kept |
| Configuration.EnableAlarm2Interrupts | src/ds323x/configuration.rs:128-131 | CONTROL written with A2IE set and other bits kept |
| Configuration.DisableAlarm2Interrupts | src/ds323x/configuration.rs:134-137 | CONTROL written with A2IE cleared and other bits kept |
| Status.Running | src/ds323x/status.rs:25-28 | one live CONTROL read; true iff EOSC is clear in the byte read; shadows untouched |
| Status.Busy | src/ds323x/status.rs:31-34 | one live STATUS read; true iff BSY is set |
| Status.HasBeenStopped | src/ds323x/status.rs:43-46 | one live STATUS read; true iff OSF is set |
| Status.ClearHasBeenStoppedFlag | src/ds323x/status.rs:52-55 | requests the status shadow with OSF cleared through the alarm-preserving write; the shadow loses OSF only on success; an alarm-clear shadow stays clear |
| Status.HasAlarm1Matched | src/ds323x/status.rs:61-64 | one live STATUS read; true iff A1F is set |
| Status.Alarm1ClearingKeepsAlarm2 | src/ds323x/status.rs:70 | for every shadow, `Alarm1Clearing` sends A2F = 1, so alarm 2 is never cleared, and every bit outside the alarm flags as the shadow holds it |
| Status.Alarm1ClearingClearsAlarm1 | src/ds323x/status.rs:70 | when the shadow's A1F is 0 (and the alarm flags are disjoint), `Alarm1Clearing` sends A1F = 0 |
| Status.Alarm1ClearingClearsOnlyAlarm1 | src/ds323x/status.rs:70 | with A1F clear in the shadow, the byte sent has A1F = 0, A2F = 1, and every other bit as in the shadow |
| Status.ClearAlarm1MatchedFlag | src/ds323x/status.rs:69-72 | one direct STATUS write of `shadow OR A2F`; no shadow changes |
| Status.HasAlarm2Matched | src/ds323x/status.rs:78-81 | one live STATUS read; true iff A2F is set |
| Status.Alarm2ClearingKeepsAlarm1 | src/ds323x/status.rs:87 | for every shadow, `Alarm2Clearing` sends A1F = 1 and every bit outside the alarm flags as the shadow holds it |
| Status.Alarm2ClearingClearsAlarm2 | src/ds323x/status.rs:87 | when the shadow's A2F is 0 (and the alarm flags are disjoint), `Alarm2Clearing` sends A2F = 0 |
| Status.Alarm2ClearingClearsOnlyAlarm2 | src/ds323x/status.rs:87 | with A2F clear in the shadow, the byte sent has A2F = 0, A1F = 1, and every other bit as in the shadow |
| Status.ClearAlarm2MatchedFlag | src/ds323x/status.rs:86-89 | one direct STATUS write of `shadow OR A1F`; no shadow changes |
| Status.RawTemperatureValue | src/ds323x/status.rs:99 | the 10-bit assembly `(msb << 2) OR (lsb >> 6)` is the integer `4 * msb + lsb[7:6]` |
| Status.SignExtendedTemperatureValue | src/ds323x/status.rs:100-102 | the sign-extended assembly read as `i16` is `4 * (msb - 256) + lsb[7:6]` |
| Status.DecodeTemperatureValue | src/ds323x/status.rs:98-105 | `DecodeTemperature`: the decoded quarter-degree count is `4 * (msb as i8) + lsb[7:6]`; it lies in -512..511 and is negative exactly when bit 7 of msb is set |
| Status.DecodeTemperatureRoundTrip | src/ds323x/status.rs:98-105 | every quarter-degree value in -512..511 decodes back from its register bytes |
| Status.QuarterBits | src/ds323x/status.rs:99 | a quarter count 0..3 survives its trip through TEMP_LSB's top two bits |
| Status.DecodeTemperatureIgnoresLowBits | src/ds323x/status.rs:99 | the low six bits of TEMP_LSB never affect the decoded temperature |
| Status.DecodeTemperatureExamples | src/ds323x/status.rs:98-105 | 0x19/0x00 is 25.00, 0x19/0x40 is 25.25, 0xFF/0xC0 is -0.25, 0xE3/0x00 is -29.00 and 0xE3/0x40 is -28.75 (in quarters) |
| Status.Temperature | src/ds323x/status.rs:95-106 | one multi-byte read of the buffer `[TEMP_MSB, 0, 0]`; returns the decode of reply bytes 1 and 2, or `Comm` |
| Extended.StatusPorValueFlags | src/ds3232.rs:31 | `StatusPorValue`, the power-on status, has OSF, BB32KHZ and EN32KHZ set |
| Extended.StatusPorValueAvoidsAlarms | src/ds3232.rs:31 | the power-on status holds no alarm-matched flag |
| Extended.ConversionRate64s | src/ds3232.rs:76 | 64 s gives CRATE1:CRATE0 = 00 and keeps every other STATUS bit (same expression at src/ds3234.rs:75) |
| Extended.ConversionRate128s | src/ds3232.rs:77 | 128 s gives CRATE1:CRATE0 = 01 and keeps every other bit (src/ds3234.rs:76) |
| Extended.ConversionRate256s | src/ds3232.rs:78 | 256 s sets CRATE1 and keeps the other bits, but CRATE0 keeps its previous value, where the table asks for 10 (src/ds3234.rs:77) |
| Extended.ConversionRate512s | src/ds3232.rs:79 | 512 s gives CRATE1:CRATE0 = 11 and keeps every other bit (src/ds3234.rs:78) |
| Extended.ConversionRate256After128 | src/ds3232.rs:77-78 | choosing 256 s after 128 s leaves CRATE1:CRATE0 = 11 (512 s) |
| Extended.ConversionRateIdempotent | src/ds3232.rs:75-80 | `ConversionRateStatus`: choosing the same rate twice requests the same status byte as choosing it once (src/ds3234.rs:74-79) |
| Extended.ConversionRateKeepsOthers | src/ds3232.rs:75-80 | every rate leaves the STATUS bits outside CRATE1:CRATE0 as they were |
| Extended.ConversionRateKeepsAlarmsClear | src/ds3232.rs:75-80 | no rate brings an alarm-matched flag into a status byte that had none |
| Extended.RequestKeepsAlarmsClear | src/ds323x/configuration.rs:147-158 | no status request routed through the alarm-preserving write brings an alarm flag into a shadow that had none |
| Extended.ClearHasBeenStoppedKeepsAlarmsClear | src/ds323x/status.rs:53 | clearing OSF keeps an alarm-clear shadow clear |
| Extended.Output32khzKeepsAlarmsClear | src/ds323x/configuration.rs:55-64 | setting or clearing EN32KHZ keeps an alarm-clear shadow clear |
| Extended.Output32khzOnBatteryKeepsAlarmsClear | src/ds3232.rs:51-65 | setting or clearing BB32KHZ keeps an alarm-clear shadow clear |
| Extended.AlarmShadowStaysClear | src/ds3232.rs:30-38 | starting from the power-on status, the shadow holds no alarm-matched flag after any run of shadow-updating calls, whichever of their writes fail |
| Extended.Enable32khzOutputOnBattery | src/ds3232.rs:51-54 | requests the status shadow with BB32KHZ set through the alarm-preserving write; alarm-clear shadow preserved (src/ds3234.rs:50-53) |
| Extended.Disable32khzOutputOnBattery | src/ds3232.rs:62-65 | requests the status shadow with BB32KHZ cleared through the alarm-preserving write (src/ds3234.rs:61-64) |
| Extended.SetTemperatureConversionRate | src/ds3232.rs:74-82 | requests the rate's CRATE1:CRATE0 expression on the shadow through the alarm-preserving write; alarm-clear shadow preserved (src/ds3234.rs:73-81) |
| Ds3232.NewDs3232 | src/ds3232.rs:30-38 | a fresh DS3232 over I2C at the device address, with the CONTROL power-on value and STATUS = OSF OR BB32KHZ OR EN32KHZ (no alarm flag); no bus transaction |
| Ds3234.NewDs3234 | src/ds3234.rs:29-37 | a fresh DS3234 over SPI with the same power-on shadows; no bus transaction |
| Ds3234.EnableTemperatureConversionsOnBattery | src/ds3234.rs:86-88 | one direct write of 0 to TEMP_CONV; neither shadow changes |
| Ds3234.DisableTemperatureConversionsOnBattery | src/ds3234.rs:93-97 | one direct write of BB_TD to TEMP_CONV; neither shadow changes |
| Ds3234.TempConvWriteOnTheWire | src/ds3234.rs:86-97 | on a DS3234 the TEMP_CONV writes are SPI writes whose address byte has bit 7 set and low seven bits equal to TEMP_CONV |

## Left out

- The sync/async duplication: the two variants behave the same, so one sequential version is modelled.
- The `f32` result of `temperature`: floating point is not modelled. `Status.Temperature` returns the integer count of quarter degrees that the code multiplies by 0.25.
- The I2C and SPI hardware traits are replaced by the logging, oracle-driven `Interface.Bus`. Bus timing, chip select and retries are not modelled.
- How a failing bus call leaves a receive buffer: the model chooses "unchanged". Nothing in the driver reads the buffer after a failure.
- `destroy_ds3232` / `destroy_ds3234`: they only hand back the bus handle.
- The DS3231 constructor: `ds3231.rs` is not part of this model. The `Device.Ic` value `DS3231` stands for such devices.
- The numeric values of the bit flags, register addresses, `DEVICE_ADDRESS` and `CONTROL_POR_VALUE`: they are carried abstractly in `Registers.Chip` under `Chip.Valid()`.
- The type-level gating of the DS3232/DS3234-only operations is a precondition on the device's `ic` in the model.
- `Error::InvalidInputData`: the modelled core never produces it.
- Interface.SpiInterface.WriteRegister: requires the register to be below 0x80. For larger addresses Rust's `register + 0x80` overflows, which panics in a debug build, and that case is not modelled.
- Interface.SpiInterface.WriteData: requires a non-empty buffer whose first byte is below 0x80, for the same overflow reason. An empty buffer panics on `payload[0]`.
- Interface.I2cInterface.ReadData: requires a non-empty buffer, since `payload[0]` panics on an empty one.
- Physical chip behaviour, such as a 0 written to A1F clearing the latch: the contracts speak about the bytes sent, not about the hardware's response.
