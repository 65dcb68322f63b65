/** The operations the DS3232 and the DS3234 share and the DS3231 lacks:
    the 32 kHz output on battery and the temperature conversion rate, both
    STATUS settings written through the alarm-preserving path.  `ds3232.rs`
    and `ds3234.rs` define them identically; they are modelled once here. */
module Extended {
  import opened Registers
  import opened Interface
  import opened Device

  /** How often the temperature is measured (the crate's `TempConvRate`). */
  datatype TempConvRate = S64 | S128 | S256 | S512

  /** `STATUS_POR_VALUE`: OSF, BB32KHZ and EN32KHZ set. */
  function StatusPorValue(bits: BitFlags): bv8 {
    bits.oscStop | bits.bb32khz | bits.en32khz
  }

  /** The power-on status holds OSF, BB32KHZ and EN32KHZ ... */
  lemma StatusPorValueFlags(bits: BitFlags)
    ensures StatusPorValue(bits) & bits.oscStop == bits.oscStop
    ensures StatusPorValue(bits) & bits.bb32khz == bits.bb32khz
    ensures StatusPorValue(bits) & bits.en32khz == bits.en32khz
  {
  }

  /** ... and no alarm-matched flag. */
  lemma StatusPorValueAvoidsAlarms(bits: BitFlags)
    requires bits.Valid()
    ensures StatusPorValue(bits) & bits.Alarms() == 0
  {
    var a := bits.Alarms();
    bits.AvoidsAlarms(bits.oscStop);
    bits.AvoidsAlarms(bits.bb32khz);
    bits.AvoidsAlarms(bits.en32khz);
    UnionKeepsClear(bits.oscStop, bits.bb32khz, a);
    UnionKeepsClear(bits.oscStop | bits.bb32khz, bits.en32khz, a);
  }

  /** The new status byte `set_temperature_conversion_rate` requests: one
      expression per rate, with Rust's precedence made explicit.  The
      datasheet's table asks for the CRATE1:CRATE0 patterns 64 s = 00,
      128 s = 01, 256 s = 10, 512 s = 11. */
  function ConversionRateStatus(status: bv8, rate: TempConvRate, bits: BitFlags): bv8 {
    match rate
    case S64 => status & !bits.crate1 & !bits.crate0
    case S128 => (status & !bits.crate1) | bits.crate0
    case S256 => status | (bits.crate1 & !bits.crate0)
    case S512 => status | bits.crate1 | bits.crate0
  }

  /** 64 s: CRATE1:CRATE0 = 00 and the other STATUS bits keep their values. */
  lemma ConversionRate64s(status: bv8, bits: BitFlags)
    ensures var r := ConversionRateStatus(status, S64, bits);
      && r & !(bits.crate1 | bits.crate0) == status & !(bits.crate1 | bits.crate0)
      && r & bits.crate1 == 0 && r & bits.crate0 == 0
  {
    FieldExprClear(status, bits.crate1, bits.crate0);
  }

  /** 128 s: CRATE1:CRATE0 = 01 and the other STATUS bits keep their values. */
  lemma ConversionRate128s(status: bv8, bits: BitFlags)
    requires bits.Valid()
    ensures var r := ConversionRateStatus(status, S128, bits);
      && r & !(bits.crate1 | bits.crate0) == status & !(bits.crate1 | bits.crate0)
      && r & bits.crate1 == 0 && r & bits.crate0 == bits.crate0
  {
    bits.CrateDisjoint();
    FieldExprLo(status, bits.crate1, bits.crate0);
  }

  /** 256 s: CRATE1 is set and the other STATUS bits keep their values, but
      CRATE0 is not cleared: it keeps the value it had, where the table asks
      for CRATE1:CRATE0 = 10. */
  lemma ConversionRate256s(status: bv8, bits: BitFlags)
    requires bits.Valid()
    ensures var r := ConversionRateStatus(status, S256, bits);
      && r & !(bits.crate1 | bits.crate0) == status & !(bits.crate1 | bits.crate0)
      && r & bits.crate1 == bits.crate1 && r & bits.crate0 == status & bits.crate0
  {
    bits.CrateDisjoint();
    FieldExprHi(status, bits.crate1, bits.crate0);
  }

  /** 512 s: CRATE1:CRATE0 = 11 and the other STATUS bits keep their values. */
  lemma ConversionRate512s(status: bv8, bits: BitFlags)
    ensures var r := ConversionRateStatus(status, S512, bits);
      && r & !(bits.crate1 | bits.crate0) == status & !(bits.crate1 | bits.crate0)
      && r & bits.crate1 == bits.crate1 && r & bits.crate0 == bits.crate0
  {
    FieldExprBoth(status, bits.crate1, bits.crate0);
  }

  /** Consequence of the 256 s expression: selecting 256 s while 128 s is
      selected leaves CRATE1:CRATE0 = 11, the 512 s pattern. */
  lemma ConversionRate256After128(status: bv8, bits: BitFlags)
    requires bits.Valid()
    ensures var r := ConversionRateStatus(ConversionRateStatus(status, S128, bits), S256, bits);
      r & bits.crate1 == bits.crate1 && r & bits.crate0 == bits.crate0
  {
    ConversionRate128s(status, bits);
    ConversionRate256s(ConversionRateStatus(status, S128, bits), bits);
  }

  /** Choosing the same rate twice requests what choosing it once does. */
  lemma ConversionRateIdempotent(status: bv8, rate: TempConvRate, bits: BitFlags)
    ensures ConversionRateStatus(ConversionRateStatus(status, rate, bits), rate, bits)
         == ConversionRateStatus(status, rate, bits)
  {
    match rate
    case S64 =>
    case S128 =>
    case S256 =>
    case S512 =>
  }

  /** Every rate leaves the STATUS bits outside CRATE1:CRATE0 as they were. */
  lemma ConversionRateKeepsOthers(status: bv8, rate: TempConvRate, bits: BitFlags)
    ensures ConversionRateStatus(status, rate, bits) & !(bits.crate1 | bits.crate0)
         == status & !(bits.crate1 | bits.crate0)
  {
    FieldExprsKeepOthers(status, bits.crate1, bits.crate0);
  }

  /** No rate brings an alarm-matched flag into a status byte clear of them. */
  lemma ConversionRateKeepsAlarmsClear(status: bv8, rate: TempConvRate, bits: BitFlags)
    requires bits.Valid() && status & bits.Alarms() == 0
    ensures ConversionRateStatus(status, rate, bits) & bits.Alarms() == 0
  {
    var a := bits.Alarms();
    bits.AvoidsAlarms(bits.crate1);
    bits.AvoidsAlarms(bits.crate0);
    UnionKeepsClear(bits.crate1, bits.crate0, a);
    ConversionRateKeepsOthers(status, rate, bits);
    AgreementKeepsClear(ConversionRateStatus(status, rate, bits), status, bits.crate1 | bits.crate0, a);
  }

  /** A call that goes through `write_status_without_clearing_alarm` and so
      may move the status shadow: `clear_has_been_stopped_flag`,
      `enable_`/`disable_32khz_output`, `enable_`/`disable_32khz_output_on_battery`
      and `set_temperature_conversion_rate`.  The alarm-clearing calls write
      STATUS directly and never move the shadow. */
  datatype StatusRequest =
    | ClearHasBeenStopped
    | Output32khz(enable: bool)
    | Output32khzOnBattery(enable: bool)
    | ConversionRate(rate: TempConvRate)

  /** The status byte the call requests from the current shadow. */
  function Requested(status: bv8, req: StatusRequest, bits: BitFlags): bv8 {
    match req
    case ClearHasBeenStopped => ClearFlag(status, bits.oscStop)
    case Output32khz(on) => StepFlag(status, bits.en32khz, on)
    case Output32khzOnBattery(on) => StepFlag(status, bits.bb32khz, on)
    case ConversionRate(rate) => ConversionRateStatus(status, rate, bits)
  }

  /** The status shadow after a run of calls, each paired with whether its
      bus write succeeded: the shadow takes the requested byte only on
      success. */
  function ShadowAfter(status: bv8, calls: seq<(StatusRequest, bool)>, bits: BitFlags): bv8
    decreases |calls|
  {
    if calls == [] then status
    else
      var before := ShadowAfter(status, calls[..|calls| - 1], bits);
      var (req, ok) := calls[|calls| - 1];
      if ok then Requested(before, req, bits) else before
  }

  /** No single request brings an alarm-matched flag into a shadow clear of
      them. */
  lemma RequestKeepsAlarmsClear(status: bv8, req: StatusRequest, bits: BitFlags)
    requires bits.Valid() && status & bits.Alarms() == 0
    ensures Requested(status, req, bits) & bits.Alarms() == 0
  {
    match req
    case ClearHasBeenStopped => ClearHasBeenStoppedKeepsAlarmsClear(status, bits);
    case Output32khz(on) => Output32khzKeepsAlarmsClear(status, on, bits);
    case Output32khzOnBattery(on) => Output32khzOnBatteryKeepsAlarmsClear(status, on, bits);
    case ConversionRate(rate) => ConversionRateKeepsAlarmsClear(status, rate, bits);
  }

  /** Clearing OSF keeps the shadow clear of alarm-matched flags. */
  lemma ClearHasBeenStoppedKeepsAlarmsClear(status: bv8, bits: BitFlags)
    requires bits.Valid() && status & bits.Alarms() == 0
    ensures Requested(status, ClearHasBeenStopped, bits) & bits.Alarms() == 0
  {
    ClearFlagKeepsClear(status, bits.oscStop, bits.Alarms());
  }

  /** So does setting or clearing EN32KHZ ... */
  lemma Output32khzKeepsAlarmsClear(status: bv8, on: bool, bits: BitFlags)
    requires bits.Valid() && status & bits.Alarms() == 0
    ensures Requested(status, Output32khz(on), bits) & bits.Alarms() == 0
  {
    bits.AvoidsAlarms(bits.en32khz);
    StepFlagKeepsClear(status, bits.en32khz, on, bits.Alarms());
  }

  /** ... and setting or clearing BB32KHZ. */
  lemma Output32khzOnBatteryKeepsAlarmsClear(status: bv8, on: bool, bits: BitFlags)
    requires bits.Valid() && status & bits.Alarms() == 0
    ensures Requested(status, Output32khzOnBattery(on), bits) & bits.Alarms() == 0
  {
    bits.AvoidsAlarms(bits.bb32khz);
    StepFlagKeepsClear(status, bits.bb32khz, on, bits.Alarms());
  }

  /** The status shadow of a DS3232 or DS3234 starts without alarm-matched
      flags and never gains one, whatever calls follow and whichever of
      their writes fail. */
  lemma {:induction false} AlarmShadowStaysClear(calls: seq<(StatusRequest, bool)>, bits: BitFlags)
    requires bits.Valid()
    ensures ShadowAfter(StatusPorValue(bits), calls, bits) & bits.Alarms() == 0
    decreases |calls|
  {
    if calls == [] {
      StatusPorValueAvoidsAlarms(bits);
    } else {
      var prefix := calls[..|calls| - 1];
      AlarmShadowStaysClear(prefix, bits);
      var (req, ok) := calls[|calls| - 1];
      if ok {
        RequestKeepsAlarmsClear(ShadowAfter(StatusPorValue(bits), prefix, bits), req, bits);
      }
    }
  }

  /** The chip has the extended STATUS register. */
  predicate HasExtendedStatus(dev: Ds323x) {
    dev.ic == DS3232 || dev.ic == DS3234
  }

  /** `enable_32khz_output_on_battery`: request the status shadow with
      BB32KHZ set. */
  method Enable32khzOutputOnBattery(dev: Ds323x) returns (r: Result<()>)
    requires dev.Valid() && HasExtendedStatus(dev)
    modifies dev, dev.Handle()
    ensures dev.StatusWritten(SetFlag(old(dev.status), dev.chip.bits.bb32khz), r)
    ensures old(dev.AlarmShadowClear()) ==> dev.AlarmShadowClear()
  {
    var status := SetFlag(dev.status, dev.chip.bits.bb32khz);
    if dev.AlarmShadowClear() {
      dev.chip.bits.AvoidsAlarms(dev.chip.bits.bb32khz);
      SetFlagKeepsClear(dev.status, dev.chip.bits.bb32khz, dev.chip.bits.Alarms());
    }
    r := dev.WriteStatusWithoutClearingAlarm(status);
  }

  /** `disable_32khz_output_on_battery`: request the status shadow with
      BB32KHZ cleared. */
  method Disable32khzOutputOnBattery(dev: Ds323x) returns (r: Result<()>)
    requires dev.Valid() && HasExtendedStatus(dev)
    modifies dev, dev.Handle()
    ensures dev.StatusWritten(ClearFlag(old(dev.status), dev.chip.bits.bb32khz), r)
    ensures old(dev.AlarmShadowClear()) ==> dev.AlarmShadowClear()
  {
    var status := ClearFlag(dev.status, dev.chip.bits.bb32khz);
    if dev.AlarmShadowClear() {
      ClearFlagKeepsClear(dev.status, dev.chip.bits.bb32khz, dev.chip.bits.Alarms());
    }
    r := dev.WriteStatusWithoutClearingAlarm(status);
  }

  /** `set_temperature_conversion_rate`. */
  method SetTemperatureConversionRate(dev: Ds323x, rate: TempConvRate) returns (r: Result<()>)
    requires dev.Valid() && HasExtendedStatus(dev)
    modifies dev, dev.Handle()
    ensures dev.StatusWritten(ConversionRateStatus(old(dev.status), rate, dev.chip.bits), r)
    ensures old(dev.AlarmShadowClear()) ==> dev.AlarmShadowClear()
  {
    var status := ConversionRateStatus(dev.status, rate, dev.chip.bits);
    if dev.AlarmShadowClear() {
      ConversionRateKeepsAlarmsClear(dev.status, rate, dev.chip.bits);
    }
    r := dev.WriteStatusWithoutClearingAlarm(status);
  }
}
