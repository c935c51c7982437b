/** The conditions under which a filter or an injector applies to an endpoint. */
module Criteria {
  import opened Wire
  import opened Records
  import opened Interfaces
  import opened Configurations
  import opened Devices

  // The seven bytes of a usb_endpoint_descriptor, with whatever follows.
  type EndpointDescriptor = e: Record | |e| >= 7 witness [7, 5, 0, 0, 0, 0, 0]

  /** An endpoint in its place: its descriptor and the alternate setting it belongs to. */
  datatype Site = Site(endpoint: EndpointDescriptor, setting: Interface)

  function Masked(mask: byte, x: byte): byte {
    ((mask as bv8) & (x as bv8)) as int
  }

  datatype EndpointCriteria = EndpointCriteria(
    address: byte, addressMask: byte, attributes: byte, attributesMask: byte,
    packetSizeMin: word, packetSizeMax: word, intervalMin: byte, intervalMax: byte)
  {
    predicate Test(e: EndpointDescriptor) {
      && Masked(addressMask, address) == Masked(addressMask, e[2])
      && Masked(attributesMask, attributes) == Masked(attributesMask, e[3])
      && packetSizeMin <= Word(e[4], e[5]) <= packetSizeMax
      && intervalMin <= e[6] <= intervalMax
    }
  }

  /** Minus one stands for any value. */
  predicate Allows(wanted: int, value: int) {
    wanted == -1 || wanted == value
  }

  datatype InterfaceCriteria = InterfaceCriteria(number: int, alternate: int, deviceClass: int, subClass: int,
      protocol: int) {
    predicate Test(i: Interface) {
      var d := i.descriptor;
      Allows(number, d[2]) && Allows(alternate, d[3]) && Allows(deviceClass, d[5]) && Allows(subClass, d[6])
          && Allows(protocol, d[7])
    }
  }

  datatype ConfigurationCriteria = ConfigurationCriteria(number: int, attributes: byte, attributesMask: byte) {
    predicate Test(d: ConfigDescriptor) {
      Allows(number, d[5]) && Masked(attributesMask, attributes) == Masked(attributesMask, d[7])
    }
  }

  datatype DeviceCriteria = DeviceCriteria(
    deviceClass: int, subClass: int, protocol: int, ep0packetSizeMin: byte, ep0packetSizeMax: byte,
    vendor: int, product: int, release: int)
  {
    predicate Test(d: DeviceDescriptor) {
      && Allows(deviceClass, d[4]) && Allows(subClass, d[5]) && Allows(protocol, d[6])
      && ep0packetSizeMin <= d[7] <= ep0packetSizeMax
      && Allows(vendor, Word(d[8], d[9])) && Allows(product, Word(d[10], d[11])) && Allows(release, Word(d[12], d[13]))
    }
  }

  datatype PluginCriteria = PluginCriteria(
    endpoint: EndpointCriteria, interface: InterfaceCriteria, configuration: ConfigurationCriteria,
        device: DeviceCriteria)
  {
    /** What does not depend on the endpoint. */
    predicate Relevant(d: DeviceDescriptor, c: ConfigDescriptor) {
      device.Test(d) && configuration.Test(c)
    }

    predicate Fits(s: Site) {
      endpoint.Test(s.endpoint) && interface.Test(s.setting)
    }
  }
}
