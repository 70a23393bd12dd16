/** `SeanetHeader` (applications): the 3-byte header whose constructors
    default the destination flag to 1. */
module AppHeader {
  import opened Bytes
  import opened HeaderWire

  class SeanetHeader {
    var applicationType: uint8
    var protocolType: uint8
    var isDst: uint8

    function Fields(): Fields
      reads this
    {
      HeaderWire.Fields(applicationType, protocolType, isDst)
    }

    /** The default header is (1, 1, 1). */
    constructor ()
      ensures Fields() == HeaderWire.Fields(1, 1, 1)
    {
      applicationType, protocolType, isDst := 1, 1, 1;
    }

    /** Given application and protocol types; the packet is for its destination. */
    constructor WithTypes(at: uint8, pt: uint8)
      ensures Fields() == HeaderWire.Fields(at, pt, 1)
    {
      applicationType, protocolType, isDst := at, pt, 1;
    }

    constructor WithDst(at: uint8, pt: uint8, dst: uint8)
      ensures Fields() == HeaderWire.Fields(at, pt, dst)
    {
      applicationType, protocolType, isDst := at, pt, dst;
    }

    method SetApplicationType(at: uint8)
      modifies this
      ensures Fields() == old(Fields()).(app := at)
    {
      applicationType := at;
    }

    function GetApplicationType(): uint8
      reads this
    {
      applicationType
    }

    method Setdst(dst: uint8)
      modifies this
      ensures Fields() == old(Fields()).(dst := dst)
    {
      isDst := dst;
    }

    function Getdst(): uint8
      reads this
    {
      isDst
    }

    method SetProtocolType(pt: uint8)
      modifies this
      ensures Fields() == old(Fields()).(proto := pt)
    {
      protocolType := pt;
    }

    function GetProtocolType(): uint8
      reads this
    {
      protocolType
    }

    function GetSerializedSize(): nat
    {
      SIZE3
    }

    /** Writes the three fields at `start`, leaving every other byte alone. */
    method Serialize(buf: array<uint8>, start: nat)
      requires start + SIZE3 <= buf.Length
      modifies buf
      ensures buf[..] == old(buf[..start]) + Encode3(Fields()) + old(buf[start + SIZE3..])
    {
      buf[start] := applicationType;
      buf[start + 1] := protocolType;
      buf[start + 2] := isDst;
    }

    /** Reads the three fields from `start` and reports the bytes consumed. */
    method Deserialize(buf: array<uint8>, start: nat) returns (n: nat)
      requires start + SIZE3 <= buf.Length
      modifies this
      ensures n == GetSerializedSize()
      ensures Fields() == Decode3(buf[start..start + SIZE3])
    {
      applicationType := buf[start];
      protocolType := buf[start + 1];
      isDst := buf[start + 2];
      n := GetSerializedSize();
    }
  }

  /** A header serialized into a buffer and deserialized from the same place
      has the fields of the original. */
  method RoundTrip(h: SeanetHeader, g: SeanetHeader, buf: array<uint8>, start: nat) returns (n: nat)
    requires start + SIZE3 <= buf.Length
    modifies buf, g
    ensures n == SIZE3
    ensures g.Fields() == old(h.Fields())
  {
    ghost var f := h.Fields();
    h.Serialize(buf, start);
    assert buf[start..start + SIZE3] == Encode3(f);
    n := g.Deserialize(buf, start);
    Decode3Encode3(f);
  }
}
