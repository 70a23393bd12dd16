/** `SeanetHeader_` (nix-vector routing): the 4-byte header that also carries
    the interface number. Its constructors set the destination flag to 0 and
    leave the interface number unset; `ifaceSet` records whether it has been
    given a value, and serializing needs one. */
module NixHeader {
  import opened Bytes
  import opened HeaderWire

  class SeanetHeaderNix {
    var applicationType: uint8
    var protocolType: uint8
    var isDst: uint8
    var interfaceNum: uint8
    ghost var ifaceSet: bool

    function Fields(): Fields
      reads this
    {
      HeaderWire.Fields(applicationType, protocolType, isDst)
    }

    /** The default header is (1, 1, 0), interface number unset. */
    constructor ()
      ensures Fields() == HeaderWire.Fields(1, 1, 0) && !ifaceSet
    {
      applicationType, protocolType, isDst := 1, 1, 0;
      ifaceSet := false;
    }

    constructor WithTypes(at: uint8, pt: uint8)
      ensures Fields() == HeaderWire.Fields(at, pt, 0) && !ifaceSet
    {
      applicationType, protocolType, isDst := at, pt, 0;
      ifaceSet := false;
    }

    constructor WithDst(at: uint8, pt: uint8, dst: uint8)
      ensures Fields() == HeaderWire.Fields(at, pt, dst) && !ifaceSet
    {
      applicationType, protocolType, isDst := at, pt, dst;
      ifaceSet := false;
    }

    method SetApplicationType(at: uint8)
      modifies this
      ensures Fields() == old(Fields()).(app := at)
      ensures interfaceNum == old(interfaceNum) && ifaceSet == old(ifaceSet)
    {
      applicationType := at;
    }

    function GetApplicationType(): uint8
      reads this
    {
      applicationType
    }

    method Setdst(dst: uint8)
      modifies this
      ensures Fields() == old(Fields()).(dst := dst)
      ensures interfaceNum == old(interfaceNum) && ifaceSet == old(ifaceSet)
    {
      isDst := dst;
    }

    function Getdst(): uint8
      reads this
    {
      isDst
    }

    method SetInterface(num: uint8)
      modifies this
      ensures Fields() == old(Fields())
      ensures ifaceSet && GetInterface() == num
    {
      interfaceNum := num;
      ifaceSet := true;
    }

    function GetInterface(): uint8
      reads this
      requires ifaceSet
    {
      interfaceNum
    }

    method SetProtocolType(pt: uint8)
      modifies this
      ensures Fields() == old(Fields()).(proto := pt)
      ensures interfaceNum == old(interfaceNum) && ifaceSet == old(ifaceSet)
    {
      protocolType := pt;
    }

    function GetProtocolType(): uint8
      reads this
    {
      protocolType
    }

    function GetSerializedSize(): nat
    {
      SIZE4
    }

    /** Writes the four bytes at `start`, leaving every other byte alone. */
    method Serialize(buf: array<uint8>, start: nat)
      requires ifaceSet
      requires start + SIZE4 <= buf.Length
      modifies buf
      ensures buf[..] == old(buf[..start]) + Encode4(Fields(), interfaceNum) + old(buf[start + SIZE4..])
    {
      buf[start] := applicationType;
      buf[start + 1] := protocolType;
      buf[start + 2] := isDst;
      buf[start + 3] := interfaceNum;
    }

    /** Reads all four fields from `start` and reports the bytes consumed. */
    method Deserialize(buf: array<uint8>, start: nat) returns (n: nat)
      requires start + SIZE4 <= buf.Length
      modifies this
      ensures n == GetSerializedSize()
      ensures ifaceSet && (Fields(), interfaceNum) == Decode4(buf[start..start + SIZE4])
    {
      applicationType := buf[start];
      protocolType := buf[start + 1];
      isDst := buf[start + 2];
      interfaceNum := buf[start + 3];
      ifaceSet := true;
      n := GetSerializedSize();
    }
  }

  /** A header serialized into a buffer and deserialized from the same place
      has all four fields of the original. */
  method RoundTrip(h: SeanetHeaderNix, g: SeanetHeaderNix, buf: array<uint8>, start: nat) returns (n: nat)
    requires h.ifaceSet
    requires start + SIZE4 <= buf.Length
    modifies buf, g
    ensures n == SIZE4
    ensures g.ifaceSet && g.Fields() == old(h.Fields()) && g.GetInterface() == old(h.interfaceNum)
  {
    ghost var f, i := h.Fields(), h.interfaceNum;
    h.Serialize(buf, start);
    assert buf[start..start + SIZE4] == Encode4(f, i);
    n := g.Deserialize(buf, start);
    Decode4Encode4(f, i);
  }
}
