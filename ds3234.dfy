/** The DS3234: built over SPI only, with the extra TEMP_CONV register. */
module Ds3234 {
  import opened Registers
  import opened Interface
  import opened Device
  import opened Extended

  /** `new_ds3234`: wrap the bus in an SPI interface and start from the
      power-on shadows, without any bus transaction. */
  method NewDs3234(spi: Bus, chip: Chip) returns (dev: Ds323x)
    requires chip.Valid()
    ensures fresh(dev) && dev.Valid()
    ensures dev.ic == DS3234 && dev.iface.Spi? && dev.Handle() == spi && dev.chip == chip
    ensures dev.control == chip.controlPorValue && dev.status == StatusPorValue(chip.bits)
    ensures dev.AlarmShadowClear()
    ensures spi.log == old(spi.log)
  {
    var iface := new SpiInterface(spi);
    StatusPorValueAvoidsAlarms(chip.bits);
    dev := new Ds323x(Spi(iface), DS3234, chip, chip.controlPorValue, StatusPorValue(chip.bits));
  }

  /** `enable_temperature_conversions_on_battery`: write 0 to TEMP_CONV
      directly; no shadow is kept of it. */
  method EnableTemperatureConversionsOnBattery(dev: Ds323x) returns (r: Result<()>)
    requires dev.Valid() && dev.ic == DS3234
    modifies dev.Handle()
    ensures dev.Issued([dev.iface.WriteRegisterTxn(dev.chip.register.tempConv, 0)])
    ensures r == Outcome(dev.Fault(0), ())
  {
    r := dev.iface.WriteRegister(dev.chip.register.tempConv, 0);
  }

  /** `disable_temperature_conversions_on_battery`: write BB_TD to TEMP_CONV
      directly. */
  method DisableTemperatureConversionsOnBattery(dev: Ds323x) returns (r: Result<()>)
    requires dev.Valid() && dev.ic == DS3234
    modifies dev.Handle()
    ensures dev.Issued([dev.iface.WriteRegisterTxn(dev.chip.register.tempConv, dev.chip.bits.tempConvBat)])
    ensures r == Outcome(dev.Fault(0), ())
  {
    r := dev.iface.WriteRegister(dev.chip.register.tempConv, dev.chip.bits.tempConvBat);
  }

  /** On a DS3234 the TEMP_CONV writes go out over SPI with the address's
      write bit set: the wire bytes are [TEMP_CONV | 0x80, value]. */
  lemma TempConvWriteOnTheWire(dev: Ds323x, value: bv8)
    requires dev.Valid() && dev.ic == DS3234
    ensures dev.iface.WriteRegisterTxn(dev.chip.register.tempConv, value)
         == SpiWrite([SpiWriteAddress(dev.chip.register.tempConv), value])
    ensures SpiWriteAddress(dev.chip.register.tempConv) & 0x80 == 0x80
    ensures SpiWriteAddress(dev.chip.register.tempConv) & 0x7F == dev.chip.register.tempConv
  {
  }
}
