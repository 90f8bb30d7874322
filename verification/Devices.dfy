/** The records that main.c, the protocol modules and the switch modules share. */
module Devices {
  const MAX_OBJECTS := 256

  const PROTOCOL_APP := 0
  const PROTOCOL_BRIDGE := 1
  const PROTOCOL_FLOW := 2

  /** struct sw: one switch module with its one global device record. */
  class Switch {
    const swType: int
    /** The protocol that its proto_reg_func answers to. */
    const supports: int
    const device: Device

    constructor (swType: int, supports: int, device: Device)
      ensures this.swType == swType && this.supports == supports && this.device == device
    {
      this.swType, this.supports, this.device := swType, supports, device;
    }
  }

  /** struct flw_device or struct br_device. */
  class Device {
    var devHdl: Switch?

    constructor ()
      ensures devHdl == null
    {
      devHdl := null;
    }
  }
}
