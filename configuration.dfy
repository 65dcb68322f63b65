/** Device configuration: read-modify-write of the CONTROL and STATUS shadows
    (oscillator, interrupt/square-wave output, square-wave frequency, alarm
    interrupts, 32 kHz output), aging offset and forced temperature conversion. */
module Configuration {
  import opened Registers
  import opened Interface
  import opened Device

  /** Square-wave output frequency (the crate's `SqWFreq`). */
  datatype SqWFreq = Hz1 | Hz1_024 | Hz4_096 | Hz8_192

  /** The new control byte `set_square_wave_frequency` computes: one
      expression per frequency, with Rust's precedence (`&` binds tighter
      than `|`) made explicit.  The datasheet's table asks for the RS2:RS1
      patterns 1 Hz = 00, 1.024 kHz = 01, 4.096 kHz = 10, 8.192 kHz = 11;
      the lemmas below state what each expression actually yields. */
  function SquareWaveControl(control: bv8, freq: SqWFreq, bits: BitFlags): bv8 {
    match freq
    case Hz1 => control & !bits.rs2 & !bits.rs1
    case Hz1_024 => (control & !bits.rs2) | bits.rs1
    case Hz4_096 => control | (bits.rs2 & !bits.rs1)
    case Hz8_192 => control | bits.rs2 | bits.rs1
  }

  /** 1 Hz: RS2:RS1 = 00 and the other CONTROL bits keep their values. */
  lemma SquareWave1Hz(control: bv8, bits: BitFlags)
    ensures var r := SquareWaveControl(control, Hz1, bits);
      && r & !(bits.rs2 | bits.rs1) == control & !(bits.rs2 | bits.rs1)
      && r & bits.rs2 == 0 && r & bits.rs1 == 0
  {
    FieldExprClear(control, bits.rs2, bits.rs1);
  }

  /** 1.024 kHz: RS2:RS1 = 01 and the other CONTROL bits keep their values. */
  lemma SquareWave1024Hz(control: bv8, bits: BitFlags)
    requires bits.Valid()
    ensures var r := SquareWaveControl(control, Hz1_024, bits);
      && r & !(bits.rs2 | bits.rs1) == control & !(bits.rs2 | bits.rs1)
      && r & bits.rs2 == 0 && r & bits.rs1 == bits.rs1
  {
    bits.RsDisjoint();
    FieldExprLo(control, bits.rs2, bits.rs1);
  }

  /** 4.096 kHz: RS2 is set and the other CONTROL bits keep their values, but
      RS1 is not cleared: it keeps the value it had, where the table asks
      for RS2:RS1 = 10. */
  lemma SquareWave4096Hz(control: bv8, bits: BitFlags)
    requires bits.Valid()
    ensures var r := SquareWaveControl(control, Hz4_096, bits);
      && r & !(bits.rs2 | bits.rs1) == control & !(bits.rs2 | bits.rs1)
      && r & bits.rs2 == bits.rs2 && r & bits.rs1 == control & bits.rs1
  {
    bits.RsDisjoint();
    FieldExprHi(control, bits.rs2, bits.rs1);
  }

  /** 8.192 kHz: RS2:RS1 = 11 and the other CONTROL bits keep their values. */
  lemma SquareWave8192Hz(control: bv8, bits: BitFlags)
    ensures var r := SquareWaveControl(control, Hz8_192, bits);
      && r & !(bits.rs2 | bits.rs1) == control & !(bits.rs2 | bits.rs1)
      && r & bits.rs2 == bits.rs2 && r & bits.rs1 == bits.rs1
  {
    FieldExprBoth(control, bits.rs2, bits.rs1);
  }

  /** Consequence of the 4.096 kHz expression: selecting 4.096 kHz while
      1.024 kHz is selected leaves RS2:RS1 = 11, the 8.192 kHz pattern. */
  lemma SquareWave4096After1024(control: bv8, bits: BitFlags)
    requires bits.Valid()
    ensures var r := SquareWaveControl(SquareWaveControl(control, Hz1_024, bits), Hz4_096, bits);
      r & bits.rs2 == bits.rs2 && r & bits.rs1 == bits.rs1
  {
    SquareWave1024Hz(control, bits);
    SquareWave4096Hz(SquareWaveControl(control, Hz1_024, bits), bits);
  }

  /** Choosing the same frequency twice gives the byte choosing it once gives. */
  lemma SquareWaveIdempotent(control: bv8, freq: SqWFreq, bits: BitFlags)
    ensures SquareWaveControl(SquareWaveControl(control, freq, bits), freq, bits)
         == SquareWaveControl(control, freq, bits)
  {
    match freq
    case Hz1 =>
    case Hz1_024 =>
    case Hz4_096 =>
    case Hz8_192 =>
  }

  /** `enable`: clear EOSC (the clock runs). */
  method Enable(dev: Ds323x) returns (r: Result<()>)
    requires dev.Valid()
    modifies dev, dev.Handle()
    ensures dev.ControlWritten(ClearFlag(old(dev.control), dev.chip.bits.eosc), r)
  {
    var control := dev.control;
    r := dev.WriteControl(ClearFlag(control, dev.chip.bits.eosc));
  }

  /** `disable`: set EOSC (the clock stops). */
  method Disable(dev: Ds323x) returns (r: Result<()>)
    requires dev.Valid()
    modifies dev, dev.Handle()
    ensures dev.ControlWritten(SetFlag(old(dev.control), dev.chip.bits.eosc), r)
  {
    var control := dev.control;
    r := dev.WriteControl(SetFlag(control, dev.chip.bits.eosc));
  }

  /** `convert_temperature`: read CONTROL live; only when no conversion is in
      progress, write the live byte back with TEMP_CONV set. Neither shadow
      is consulted or changed. */
  method ConvertTemperature(dev: Ds323x) returns (r: Result<()>)
    requires dev.Valid()
    modifies dev.Handle()
    ensures dev.Fault(0).Some? ==>
      dev.Issued([dev.iface.ReadRegisterTxn(dev.chip.register.control)]) && r == Err(Comm(dev.Fault(0).value))
    ensures dev.Fault(0).None? && dev.LiveValue(0) & dev.chip.bits.tempConv != 0 ==>
      dev.Issued([dev.iface.ReadRegisterTxn(dev.chip.register.control)]) && r == Ok(())
    ensures dev.Fault(0).None? && dev.LiveValue(0) & dev.chip.bits.tempConv == 0 ==>
      && dev.Issued([dev.iface.ReadRegisterTxn(dev.chip.register.control),
                     dev.iface.WriteRegisterTxn(dev.chip.register.control,
                                                SetFlag(dev.LiveValue(0), dev.chip.bits.tempConv))])
      && r == Outcome(dev.Fault(1), ())
  {
    ghost var log0 := dev.Handle().log;
    var read := dev.iface.ReadRegister(dev.chip.register.control);
    if read.Err? {
      return Err(read.error);
    }
    var control := read.value;
    if control & dev.chip.bits.tempConv == 0 {
      r := dev.iface.WriteRegister(dev.chip.register.control, SetFlag(control, dev.chip.bits.tempConv));
      assert dev.Handle().log == log0 + [dev.iface.ReadRegisterTxn(dev.chip.register.control),
        dev.iface.WriteRegisterTxn(dev.chip.register.control, SetFlag(control, dev.chip.bits.tempConv))];
      if r.Err? {
        return r;
      }
    }
    r := Ok(());
  }

  /** `enable_32khz_output`: request the status shadow with EN32KHZ set. */
  method Enable32khzOutput(dev: Ds323x) returns (r: Result<()>)
    requires dev.Valid()
    modifies dev, dev.Handle()
    ensures dev.StatusWritten(SetFlag(old(dev.status), dev.chip.bits.en32khz), r)
    ensures old(dev.AlarmShadowClear()) ==> dev.AlarmShadowClear()
  {
    dev.chip.bits.AvoidsAlarms(dev.chip.bits.en32khz);
    var status := SetFlag(dev.status, dev.chip.bits.en32khz);
    r := dev.WriteStatusWithoutClearingAlarm(status);
  }

  /** `disable_32khz_output`: request the status shadow with EN32KHZ cleared. */
  method Disable32khzOutput(dev: Ds323x) returns (r: Result<()>)
    requires dev.Valid()
    modifies dev, dev.Handle()
    ensures dev.StatusWritten(ClearFlag(old(dev.status), dev.chip.bits.en32khz), r)
    ensures old(dev.AlarmShadowClear()) ==> dev.AlarmShadowClear()
  {
    var status := ClearFlag(dev.status, dev.chip.bits.en32khz);
    r := dev.WriteStatusWithoutClearingAlarm(status);
  }

  /** `set_aging_offset`: write the two's-complement byte of `offset`. */
  method SetAgingOffset(dev: Ds323x, offset: i8) returns (r: Result<()>)
    requires dev.Valid()
    modifies dev.Handle()
    ensures dev.Issued([dev.iface.WriteRegisterTxn(dev.chip.register.agingOffset, AsU8(offset))])
    ensures r == Outcome(dev.Fault(0), ())
  {
    r := dev.iface.WriteRegister(dev.chip.register.agingOffset, AsU8(offset));
  }

  /** `aging_offset`: read AGING_OFFSET and return it as an `i8`. */
  method AgingOffset(dev: Ds323x) returns (r: Result<i8>)
    requires dev.Valid()
    modifies dev.Handle()
    ensures dev.Issued([dev.iface.ReadRegisterTxn(dev.chip.register.agingOffset)])
    ensures r == Outcome(dev.Fault(0), AsI8(dev.LiveValue(0)))
  {
    var read := dev.iface.ReadRegister(dev.chip.register.agingOffset);
    if read.Err? {
      return Err(read.error);
    }
    r := Ok(AsI8(read.value));
  }

  /** `use_int_sqw_output_as_interrupt`: set INTCN. */
  method UseIntSqwOutputAsInterrupt(dev: Ds323x) returns (r: Result<()>)
    requires dev.Valid()
    modifies dev, dev.Handle()
    ensures dev.ControlWritten(SetFlag(old(dev.control), dev.chip.bits.intcn), r)
  {
    var control := dev.control;
    r := dev.WriteControl(SetFlag(control, dev.chip.bits.intcn));
  }

  /** `use_int_sqw_output_as_square_wave`: clear INTCN. */
  method UseIntSqwOutputAsSquareWave(dev: Ds323x) returns (r: Result<()>)
    requires dev.Valid()
    modifies dev, dev.Handle()
    ensures dev.ControlWritten(ClearFlag(old(dev.control), dev.chip.bits.intcn), r)
  {
    var control := dev.control;
    r := dev.WriteControl(ClearFlag(control, dev.chip.bits.intcn));
  }

  /** `enable_square_wave`: set BBSQW. */
  method EnableSquareWave(dev: Ds323x) returns (r: Result<()>)
    requires dev.Valid()
    modifies dev, dev.Handle()
    ensures dev.ControlWritten(SetFlag(old(dev.control), dev.chip.bits.bbsqw), r)
  {
    var control := dev.control;
    r := dev.WriteControl(SetFlag(control, dev.chip.bits.bbsqw));
  }

  /** `disable_square_wave`: clear BBSQW. */
  method DisableSquareWave(dev: Ds323x) returns (r: Result<()>)
    requires dev.Valid()
    modifies dev, dev.Handle()
    ensures dev.ControlWritten(ClearFlag(old(dev.control), dev.chip.bits.bbsqw), r)
  {
    var control := dev.control;
    r := dev.WriteControl(ClearFlag(control, dev.chip.bits.bbsqw));
  }

  /** `set_square_wave_frequency`. */
  method SetSquareWaveFrequency(dev: Ds323x, freq: SqWFreq) returns (r: Result<()>)
    requires dev.Valid()
    modifies dev, dev.Handle()
    ensures dev.ControlWritten(SquareWaveControl(old(dev.control), freq, dev.chip.bits), r)
  {
    var newControl := SquareWaveControl(dev.control, freq, dev.chip.bits);
    r := dev.WriteControl(newControl);
  }

  /** `enable_alarm1_interrupts`: set A1IE. */
  method EnableAlarm1Interrupts(dev: Ds323x) returns (r: Result<()>)
    requires dev.Valid()
    modifies dev, dev.Handle()
    ensures dev.ControlWritten(SetFlag(old(dev.control), dev.chip.bits.alarm1IntEn), r)
  {
    var control := dev.control;
    r := dev.WriteControl(SetFlag(control, dev.chip.bits.alarm1IntEn));
  }

  /** `disable_alarm1_interrupts`: clear A1IE. */
  method DisableAlarm1Interrupts(dev: Ds323x) returns (r: Result<()>)
    requires dev.Valid()
    modifies dev, dev.Handle()
    ensures dev.ControlWritten(ClearFlag(old(dev.control), dev.chip.bits.alarm1IntEn), r)
  {
    var control := dev.control;
    r := dev.WriteControl(ClearFlag(control, dev.chip.bits.alarm1IntEn));
  }

  /** `enable_alarm2_interrupts`: set A2IE. */
  method EnableAlarm2Interrupts(dev: Ds323x) returns (r: Result<()>)
    requires dev.Valid()
    modifies dev, dev.Handle()
    ensures dev.ControlWritten(SetFlag(old(dev.control), dev.chip.bits.alarm2IntEn), r)
  {
    var control := dev.control;
    r := dev.WriteControl(SetFlag(control, dev.chip.bits.alarm2IntEn));
  }

  /** `disable_alarm2_interrupts`: clear A2IE. */
  method DisableAlarm2Interrupts(dev: Ds323x) returns (r: Result<()>)
    requires dev.Valid()
    modifies dev, dev.Handle()
    ensures dev.ControlWritten(ClearFlag(old(dev.control), dev.chip.bits.alarm2IntEn), r)
  {
    var control := dev.control;
    r := dev.WriteControl(ClearFlag(control, dev.chip.bits.alarm2IntEn));
  }
}
