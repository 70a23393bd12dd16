/** The wire constants of the Seanet overlay (seanet-protocol.h), the
    locator type the switches key their tables by, and the packets every
    component appends to its output trace instead of calling SendTo. */
module Protocol {
  import opened Bytes

  // application types
  const RESOLUTION_APPLICATION: uint8 := 0x01
  const SWITCH_APPLICATION: uint8 := 0x02
  const NEIGH_INFO_APPLICATION: uint8 := 0x03
  const MULTICAST_APPLICATION: uint8 := 0x04

  // resolution protocol types and the page flag values
  const REQUEST_EID_NA: uint8 := 0x01
  const REPLY_EID_NA: uint8 := 0x02
  const REGIST_EID_NA: uint8 := 0x03
  const PACKET_FINISH: uint8 := 0x01
  const PACKET_NOT_FINISH: uint8 := 0x00

  // switch protocol types
  const REQUEST_DATA: uint8 := 0x01
  const REPLY_DATA: uint8 := 0x02
  const RESEIVE_DATA: uint8 := 0x03

  // neighbour probing protocol types
  const NEIGH_INFO_RECEIVE: uint8 := 0x01
  const NEIGH_INFO_REPLY: uint8 := 0x02

  // multicast protocol types
  const REGIST_TO_SOURCE_DR: uint8 := 0x01
  const REGIST_TO_RN: uint8 := 0x02
  const GRAFITING_REQUEST: uint8 := 0x03
  const MULTICAST_DATA_TRANS: uint8 := 0x04
  const REGIST_TO_DEST_DR: uint8 := 0x05

  const IS_DST: uint8 := 0x01
  const NOT_DST: uint8 := 0x00
  const MAX_PAYLOAD_LEN: nat := 255

  /** An IPv4 address annotated with the interface number the overlay uses
      to tell a node's subnets apart. */
  datatype Locator = Locator(ip: uint32, iface: nat)
  {
    /** `SetInterfaceNum(0)` */
    function Iface0(): (l: Locator)
      ensures l.ip == ip && l.iface == 0
    {
      this.(iface := 0)
    }
  }

  /** What a default-constructed Ipv4Address holds (102.102.102.102). */
  const UNSET_LOCATOR: Locator := Locator(0x66666666, 0)

  /** The 18 bytes `Address::CopyTo` writes for a node's address: how the
      resolvers store locators and how they are carried in replies. */
  type Addr = s: seq<uint8> | |s| == ADDR_LEN witness Zeros(ADDR_LEN)

  /** Where a packet goes: a locator, or the raw serialized address a
      resolver received a request from. */
  datatype Endpoint = Node(loc: Locator) | Wire(addr: seq<uint8>)

  /** One `SendTo`: the 3-byte header fields, destination, port and payload. */
  datatype Packet = Packet(app: uint8, proto: uint8, isDst: uint8, to: Endpoint, port: nat, body: seq<uint8>)

  /** A resolver's reply as `SendPacket` emits it: resolution application,
      `REPLY_EID_NA`, destination flag set, back to the requester on the
      resolver's port. */
  function ReplyPacket(body: seq<uint8>, from: Addr, port: nat): Packet
  {
    Packet(RESOLUTION_APPLICATION, REPLY_EID_NA, IS_DST, Wire(from), port, body)
  }

  /** The 10-byte probe body (ten '6' characters) of NeighInfoDetec and NeighInfoReply. */
  function ProbeBody(): (b: seq<uint8>)
    ensures |b| == 10
  {
    Repeat(0x36, 10)
  }

  /** A port carried little-endian in two bytes, `lo | (hi << 8)`: the two
      bytes occupy disjoint bits, so the `|` is a sum. */
  function PortOf(lo: uint8, hi: uint8): (p: nat)
    ensures p < 0x1_0000 && p % 256 == lo && p / 256 == hi
  {
    lo + 256 * hi
  }
}
