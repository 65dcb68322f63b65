/** The DS3232: built over I2C only. */
module Ds3232 {
  import opened Registers
  import opened Interface
  import opened Device
  import opened Extended

  /** `new_ds3232`: wrap the bus in an I2C interface at `DEVICE_ADDRESS` and
      start from the power-on shadows, without any bus transaction. */
  method NewDs3232(i2c: Bus, chip: Chip) returns (dev: Ds323x)
    requires chip.Valid()
    ensures fresh(dev) && dev.Valid()
    ensures dev.ic == DS3232 && dev.iface.I2c? && dev.Handle() == i2c && dev.chip == chip
    ensures dev.control == chip.controlPorValue && dev.status == StatusPorValue(chip.bits)
    ensures dev.AlarmShadowClear()
    ensures i2c.log == old(i2c.log)
  {
    var iface := new I2cInterface(i2c, chip.deviceAddress);
    StatusPorValueAvoidsAlarms(chip.bits);
    dev := new Ds323x(I2c(iface), DS3232, chip, chip.controlPorValue, StatusPorValue(chip.bits));
  }
}
