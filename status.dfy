/** Device status: live reads of CONTROL and STATUS flags, clearing the
    latched STATUS flags, and reading the temperature. */
module Status {
  import opened Registers
  import opened Interface
  import opened Device

  /** `running`: read CONTROL live; the oscillator runs iff EOSC is clear. */
  method Running(dev: Ds323x) returns (r: Result<bool>)
    requires dev.Valid()
    modifies dev.Handle()
    ensures dev.Issued([dev.iface.ReadRegisterTxn(dev.chip.register.control)])
    ensures r == Outcome(dev.Fault(0), dev.LiveValue(0) & dev.chip.bits.eosc == 0)
  {
    var control := dev.iface.ReadRegister(dev.chip.register.control);
    if control.Err? {
      return Err(control.error);
    }
    r := Ok(control.value & dev.chip.bits.eosc == 0);
  }

  /** `busy`: read STATUS live; busy iff BSY is set. */
  method Busy(dev: Ds323x) returns (r: Result<bool>)
    requires dev.Valid()
    modifies dev.Handle()
    ensures dev.Issued([dev.iface.ReadRegisterTxn(dev.chip.register.status)])
    ensures r == Outcome(dev.Fault(0), dev.LiveValue(0) & dev.chip.bits.busy != 0)
  {
    var status := dev.iface.ReadRegister(dev.chip.register.status);
    if status.Err? {
      return Err(status.error);
    }
    r := Ok(status.value & dev.chip.bits.busy != 0);
  }

  /** `has_been_stopped`: read STATUS live; true iff OSF is set. */
  method HasBeenStopped(dev: Ds323x) returns (r: Result<bool>)
    requires dev.Valid()
    modifies dev.Handle()
    ensures dev.Issued([dev.iface.ReadRegisterTxn(dev.chip.register.status)])
    ensures r == Outcome(dev.Fault(0), dev.LiveValue(0) & dev.chip.bits.oscStop != 0)
  {
    var status := dev.iface.ReadRegister(dev.chip.register.status);
    if status.Err? {
      return Err(status.error);
    }
    r := Ok(status.value & dev.chip.bits.oscStop != 0);
  }

  /** `clear_has_been_stopped_flag`: request the status shadow with OSF
      cleared, through the alarm-preserving write. */
  method ClearHasBeenStoppedFlag(dev: Ds323x) returns (r: Result<()>)
    requires dev.Valid()
    modifies dev, dev.Handle()
    ensures dev.StatusWritten(ClearFlag(old(dev.status), dev.chip.bits.oscStop), r)
    ensures old(dev.AlarmShadowClear()) ==> dev.AlarmShadowClear()
  {
    var status := ClearFlag(dev.status, dev.chip.bits.oscStop);
    if dev.AlarmShadowClear() {
      ClearFlagKeepsClear(dev.status, dev.chip.bits.oscStop, dev.chip.bits.Alarms());
    }
    r := dev.WriteStatusWithoutClearingAlarm(status);
  }

  /** `has_alarm1_matched`: read STATUS live; true iff A1F is set. */
  method HasAlarm1Matched(dev: Ds323x) returns (r: Result<bool>)
    requires dev.Valid()
    modifies dev.Handle()
    ensures dev.Issued([dev.iface.ReadRegisterTxn(dev.chip.register.status)])
    ensures r == Outcome(dev.Fault(0), dev.LiveValue(0) & dev.chip.bits.alarm1f != 0)
  {
    var status := dev.iface.ReadRegister(dev.chip.register.status);
    if status.Err? {
      return Err(status.error);
    }
    r := Ok(status.value & dev.chip.bits.alarm1f != 0);
  }

  /** The byte `clear_alarm1_matched_flag` writes to STATUS: the shadow with
      A2F forced to 1. */
  function Alarm1Clearing(status: bv8, bits: BitFlags): bv8 {
    SetFlag(status, bits.alarm2f)
  }

  /** That byte always writes A2F as 1, leaving that latch alone, and every
      bit outside the alarm flags as the shadow holds it ... */
  lemma Alarm1ClearingKeepsAlarm2(status: bv8, bits: BitFlags)
    ensures Alarm1Clearing(status, bits) & bits.alarm2f == bits.alarm2f
    ensures Alarm1Clearing(status, bits) & !bits.Alarms() == status & !bits.Alarms()
  {
    SetFlagKeepsOutsideLeft(status, bits.alarm2f, bits.alarm1f);
  }

  /** ... and, when the shadow's A1F is 0, it writes A1F as 0, clearing
      that latch. */
  lemma Alarm1ClearingClearsAlarm1(status: bv8, bits: BitFlags)
    requires bits.alarm2f & bits.alarm1f == 0 && status & bits.alarm1f == 0
    ensures Alarm1Clearing(status, bits) & bits.alarm1f == 0
  {
    SetFlagKeepsClear(status, bits.alarm2f, bits.alarm1f);
  }

  /** Together: with A1F clear in the shadow, `clear_alarm1_matched_flag`
      clears alarm 1 only.  The two alarm flags are disjoint on every valid
      layout (`BitFlags.AlarmFlagsDistinct`). */
  lemma Alarm1ClearingClearsOnlyAlarm1(status: bv8, bits: BitFlags)
    requires bits.alarm2f & bits.alarm1f == 0 && status & bits.alarm1f == 0
    ensures Alarm1Clearing(status, bits) & bits.alarm1f == 0
    ensures Alarm1Clearing(status, bits) & bits.alarm2f == bits.alarm2f
    ensures Alarm1Clearing(status, bits) & !bits.Alarms() == status & !bits.Alarms()
  {
    Alarm1ClearingClearsAlarm1(status, bits);
    Alarm1ClearingKeepsAlarm2(status, bits);
  }

  /** `clear_alarm1_matched_flag`: a direct write of `Alarm1Clearing`; the
      shadow is not updated. */
  method ClearAlarm1MatchedFlag(dev: Ds323x) returns (r: Result<()>)
    requires dev.Valid()
    modifies dev.Handle()
    ensures dev.Issued([dev.iface.WriteRegisterTxn(dev.chip.register.status, Alarm1Clearing(dev.status, dev.chip.bits))])
    ensures r == Outcome(dev.Fault(0), ())
  {
    var status := Alarm1Clearing(dev.status, dev.chip.bits);
    r := dev.iface.WriteRegister(dev.chip.register.status, status);
  }

  /** `has_alarm2_matched`: read STATUS live; true iff A2F is set. */
  method HasAlarm2Matched(dev: Ds323x) returns (r: Result<bool>)
    requires dev.Valid()
    modifies dev.Handle()
    ensures dev.Issued([dev.iface.ReadRegisterTxn(dev.chip.register.status)])
    ensures r == Outcome(dev.Fault(0), dev.LiveValue(0) & dev.chip.bits.alarm2f != 0)
  {
    var status := dev.iface.ReadRegister(dev.chip.register.status);
    if status.Err? {
      return Err(status.error);
    }
    r := Ok(status.value & dev.chip.bits.alarm2f != 0);
  }

  /** The byte `clear_alarm2_matched_flag` writes to STATUS: the shadow with
      A1F forced to 1. */
  function Alarm2Clearing(status: bv8, bits: BitFlags): bv8 {
    SetFlag(status, bits.alarm1f)
  }

  /** That byte always writes A1F as 1 and every bit outside the alarm flags
      as the shadow holds it ... */
  lemma Alarm2ClearingKeepsAlarm1(status: bv8, bits: BitFlags)
    ensures Alarm2Clearing(status, bits) & bits.alarm1f == bits.alarm1f
    ensures Alarm2Clearing(status, bits) & !bits.Alarms() == status & !bits.Alarms()
  {
    SetFlagKeepsOutsideRight(status, bits.alarm2f, bits.alarm1f);
  }

  /** ... and, when the shadow's A2F is 0, it writes A2F as 0. */
  lemma Alarm2ClearingClearsAlarm2(status: bv8, bits: BitFlags)
    requires bits.alarm2f & bits.alarm1f == 0 && status & bits.alarm2f == 0
    ensures Alarm2Clearing(status, bits) & bits.alarm2f == 0
  {
    DisjointSymmetric(bits.alarm2f, bits.alarm1f);
    SetFlagKeepsClear(status, bits.alarm1f, bits.alarm2f);
  }

  /** Together: with A2F clear in the shadow, `clear_alarm2_matched_flag`
      clears alarm 2 only (the alarm flags being disjoint, as on every valid
      layout). */
  lemma Alarm2ClearingClearsOnlyAlarm2(status: bv8, bits: BitFlags)
    requires bits.alarm2f & bits.alarm1f == 0 && status & bits.alarm2f == 0
    ensures Alarm2Clearing(status, bits) & bits.alarm2f == 0
    ensures Alarm2Clearing(status, bits) & bits.alarm1f == bits.alarm1f
    ensures Alarm2Clearing(status, bits) & !bits.Alarms() == status & !bits.Alarms()
  {
    Alarm2ClearingClearsAlarm2(status, bits);
    Alarm2ClearingKeepsAlarm1(status, bits);
  }

  /** `clear_alarm2_matched_flag`: a direct write of `Alarm2Clearing`; the
      shadow is not updated. */
  method ClearAlarm2MatchedFlag(dev: Ds323x) returns (r: Result<()>)
    requires dev.Valid()
    modifies dev.Handle()
    ensures dev.Issued([dev.iface.WriteRegisterTxn(dev.chip.register.status, Alarm2Clearing(dev.status, dev.chip.bits))])
    ensures r == Outcome(dev.Fault(0), ())
  {
    var status := Alarm2Clearing(dev.status, dev.chip.bits);
    r := dev.iface.WriteRegister(dev.chip.register.status, status);
  }

  /** Rust `w as i16` for a `u16`, as an integer. */
  function AsI16(w: bv16): int
  {
    if w < 0x8000 then w as int else w as int - 0x1_0000
  }

  /** The temperature in quarter degrees Celsius that `temperature` decodes
      from TEMP_MSB and TEMP_LSB: the 10-bit value TEMP_MSB:TEMP_LSB[7:6],
      sign-extended through bits 15..10 when TEMP_MSB's top bit is set. */
  function DecodeTemperature(msb: bv8, lsb: bv8): int {
    var temp := ((msb as bv16) << 2) | ((lsb >> 6) as bv16);
    if msb & 0x80 != 0 then AsI16(temp | 0xFC00) else temp as int
  }

  /** The 10-bit assembly is the integer `4 * msb + lsb[7:6]` ... */
  lemma RawTemperatureValue(msb: bv8, lsb: bv8)
    ensures (((msb as bv16) << 2) | ((lsb >> 6) as bv16)) as int == 4 * msb as int + (lsb >> 6) as int
  {
  }

  /** ... and its sign extension when the top bit of `msb` is set is
      `4 * (msb - 256) + lsb[7:6]`. */
  lemma SignExtendedTemperatureValue(msb: bv8, lsb: bv8)
    requires msb & 0x80 != 0
    ensures AsI16((((msb as bv16) << 2) | ((lsb >> 6) as bv16)) | 0xFC00)
         == 4 * (msb as int - 256) + (lsb >> 6) as int
  {
  }

  /** The decoded value is the signed whole-degree byte times four plus the
      quarter-degree count: a 10-bit two's-complement number, negative exactly
      when the sign bit is set, and the low six bits of TEMP_LSB do not
      matter. */
  lemma DecodeTemperatureValue(msb: bv8, lsb: bv8)
    ensures DecodeTemperature(msb, lsb) == 4 * AsI8(msb) as int + (lsb >> 6) as int
    ensures -512 <= DecodeTemperature(msb, lsb) < 512
    ensures DecodeTemperature(msb, lsb) < 0 <==> msb & 0x80 != 0
  {
    if msb & 0x80 != 0 {
      SignExtendedTemperatureValue(msb, lsb);
    } else {
      RawTemperatureValue(msb, lsb);
    }
  }

  /** The register bytes a temperature of `quarters` quarter degrees is held
      in: the whole degrees (rounded down) as a signed byte in TEMP_MSB, the
      quarter count in the top two bits of TEMP_LSB. */
  function TemperatureRegisters(quarters: int): (bv8, bv8)
    requires -512 <= quarters < 512
  {
    var whole := quarters / 4;
    var frac := quarters % 4;
    ByteOfInt(frac);
    (AsU8(whole as i8), (frac as bv8) << 6)
  }

  /** Decoding the register bytes of any representable temperature gives it
      back. */
  lemma DecodeTemperatureRoundTrip(quarters: int)
    requires -512 <= quarters < 512
    ensures var (msb, lsb) := TemperatureRegisters(quarters);
            DecodeTemperature(msb, lsb) == quarters
  {
    var (msb, lsb) := TemperatureRegisters(quarters);
    var whole := quarters / 4;
    var frac := quarters % 4;
    DecodeTemperatureValue(msb, lsb);
    SignedByteRoundTrip(whole as i8);
    QuarterBits(frac);
  }

  /** The quarter count survives the trip through TEMP_LSB's top two bits. */
  lemma QuarterBits(frac: int)
    requires 0 <= frac < 4
    ensures (((frac as bv8) << 6) >> 6) as int == frac
  {
    ByteOfInt(frac);
  }

  /** Ignoring TEMP_LSB's low six bits: two readings that agree on the top
      two bits of TEMP_LSB decode the same. */
  lemma DecodeTemperatureIgnoresLowBits(msb: bv8, lsb: bv8, lsb': bv8)
    requires lsb >> 6 == lsb' >> 6
    ensures DecodeTemperature(msb, lsb) == DecodeTemperature(msb, lsb')
  {
    DecodeTemperatureValue(msb, lsb);
    DecodeTemperatureValue(msb, lsb');
  }

  /** Worked values: 25.00 (0x19, 0x00), 25.25 (0x19, 0x40), -0.25
      (0xFF, 0xC0), -29.00 (0xE3, 0x00) and -28.75 (0xE3, 0x40). */
  lemma DecodeTemperatureExamples()
    ensures DecodeTemperature(0x19, 0x00) == 100
    ensures DecodeTemperature(0x19, 0x40) == 101
    ensures DecodeTemperature(0xFF, 0xC0) == -1
    ensures DecodeTemperature(0xE3, 0x00) == -116
    ensures DecodeTemperature(0xE3, 0x40) == -115
  {
  }

  /** `temperature`: read the three-byte window [TEMP_MSB, 0, 0] (address
      then two data bytes) and decode bytes 1 and 2. */
  method Temperature(dev: Ds323x) returns (r: Result<int>)
    requires dev.Valid()
    modifies dev.Handle()
    ensures dev.Issued([dev.iface.ReadDataTxn([dev.chip.register.tempMsb, 0, 0])])
    ensures var reply := dev.DataReply([dev.chip.register.tempMsb, 0, 0], 0);
            r == Outcome(dev.Fault(0), DecodeTemperature(reply[1], reply[2]))
  {
    var data := new bv8[] [dev.chip.register.tempMsb, 0, 0];
    assert data[..] == [dev.chip.register.tempMsb, 0, 0];
    var read := dev.iface.ReadData(data);
    if read.Err? {
      return Err(read.error);
    }
    r := Ok(DecodeTemperature(data[1], data[2]));
  }
}
