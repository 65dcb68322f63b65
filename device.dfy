/** The `Ds323x` device: a transport interface plus in-memory shadows of the
    CONTROL and STATUS registers, and the two primitive writes that keep the
    shadows in step with what was successfully written. */
module Device {
  import opened Registers
  import opened Interface

  /** The family member a device value stands for (the crate's `ic` markers).
      DS3231 devices are built by `ds3231.rs`, which is not part of this model. */
  datatype Ic = DS3231 | DS3232 | DS3234

  /** The byte `write_status_without_clearing_alarm` actually sends for the
      requested `status`: both alarm-matched flags forced to 1, so that the
      write cannot clear a latched alarm, and every other bit as requested. */
  function AlarmPreserving(status: bv8, bits: BitFlags): (sent: bv8)
    ensures sent & bits.alarm2f == bits.alarm2f && sent & bits.alarm1f == bits.alarm1f
    ensures sent & !bits.Alarms() == status & !bits.Alarms()
  {
    status | bits.alarm2f | bits.alarm1f
  }

  class Ds323x {
    const iface: Iface
    const ic: Ic
    const chip: Chip
    var control: bv8
    var status: bv8

    /** The struct literal `Ds323x { iface, control, status, _ic }`. */
    constructor (iface: Iface, ic: Ic, chip: Chip, control: bv8, status: bv8)
      ensures this.iface == iface && this.ic == ic && this.chip == chip
      ensures this.control == control && this.status == status
    {
      this.iface := iface;
      this.ic := ic;
      this.chip := chip;
      this.control := control;
      this.status := status;
    }

    /** The constants obey the layout assumptions, the I2C interface talks to
        `DEVICE_ADDRESS`, and a DS3232 sits on I2C, a DS3234 on SPI. */
    predicate Valid() {
      && chip.Valid()
      && (iface.I2c? ==> iface.i2cIface.address == chip.deviceAddress)
      && (ic == DS3232 ==> iface.I2c?)
      && (ic == DS3234 ==> iface.Spi?)
    }

    /** The external bus the device talks through. */
    function Handle(): Bus {
      iface.Handle()
    }

    /** The status shadow holds neither alarm-matched flag. */
    predicate AlarmShadowClear()
      reads this
    {
      status & chip.bits.Alarms() == 0
    }

    /** Since the call began, the bus was asked for exactly `txns`, in order. */
    twostate predicate Issued(txns: seq<Txn>)
      reads Handle()
    {
      Handle().log == old(Handle().log) + txns
    }

    /** The bus's answer to the `k`-th transaction issued since the call began. */
    twostate function Fault(k: nat): Option<BusError>
      reads Handle()
    {
      Handle().fault(old(|Handle().log|) + k)
    }

    /** The byte returned if the `k`-th transaction since the call began is a
        register read: a live value of the register, not a shadow. */
    twostate function LiveValue(k: nat): bv8
      reads Handle()
    {
      iface.ReadRegisterValue(old(|Handle().log|) + k)
    }

    /** The buffer a multi-byte read of `sent` fills in, if it is the
        `k`-th transaction since the call began and succeeds. */
    twostate function DataReply(sent: seq<bv8>, k: nat): seq<bv8>
      requires |sent| >= 1
      reads Handle()
    {
      iface.ReadDataReply(sent, old(|Handle().log|) + k)
    }

    /** The call wrote `value` to CONTROL in one bus transaction; the control
        shadow took the value only if the write succeeded; STATUS's shadow
        did not move. */
    twostate predicate ControlWritten(value: bv8, new r: Result<()>)
      reads this, Handle()
    {
      && Issued([iface.WriteRegisterTxn(chip.register.control, value)])
      && r == Outcome(Fault(0), ())
      && control == (if r.Ok? then value else old(control))
      && status == old(status)
    }

    /** The call asked for `requested` in STATUS: the byte sent was
        `AlarmPreserving(requested)`, the status shadow took `requested`
        itself (not the byte sent) only if the write succeeded, and CONTROL's
        shadow did not move. */
    twostate predicate StatusWritten(requested: bv8, new r: Result<()>)
      reads this, Handle()
    {
      && Issued([iface.WriteRegisterTxn(chip.register.status, AlarmPreserving(requested, chip.bits))])
      && r == Outcome(Fault(0), ())
      && status == (if r.Ok? then requested else old(status))
      && control == old(control)
    }

    /** `write_control`: write CONTROL, then update the shadow. */
    method WriteControl(value: bv8) returns (r: Result<()>)
      requires Valid()
      modifies this, Handle()
      ensures ControlWritten(value, r)
    {
      r := iface.WriteRegister(chip.register.control, value);
      if r.Ok? {
        control := value;
      }
    }

    /** `write_status_without_clearing_alarm`. */
    method WriteStatusWithoutClearingAlarm(requested: bv8) returns (r: Result<()>)
      requires Valid()
      modifies this, Handle()
      ensures StatusWritten(requested, r)
      ensures old(AlarmShadowClear()) && requested & chip.bits.Alarms() == 0 ==> AlarmShadowClear()
    {
      var sent := AlarmPreserving(requested, chip.bits);
      r := iface.WriteRegister(chip.register.status, sent);
      if r.Ok? {
        status := requested;
      }
    }
  }
}
