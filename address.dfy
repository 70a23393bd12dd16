/** `SeanetAddress`: a typed address of at most 20 bytes held in a fixed
    array, and its `[type, len, data[0..len)]` wire form. */
module SeanetAddr {
  import opened Bytes

  const MAX_SIZE: nat := 20

  /** `GetSize`: the type byte, the length byte and the full data array,
      room for every well-formed wire form. */
  function GetSize(): (n: nat)
    ensures forall wire | WellFormed(wire) :: |wire| <= n
  {
    2 + MAX_SIZE
  }

  /** A wire form whose length byte matches the data that follows it and fits the array. */
  predicate WellFormed(wire: seq<uint8>)
  {
    2 <= |wire| && wire[1] <= MAX_SIZE && |wire| == wire[1] + 2
  }

  class SeanetAddress {
    var mType: uint8
    var mLen: uint8
    const mData: array<uint8>

    ghost predicate Valid()
      reads this
    {
      mData.Length == MAX_SIZE
    }

    /** The bytes the address holds. */
    ghost function Data(): seq<uint8>
      reads this, mData
      requires Valid() && mLen <= MAX_SIZE
    {
      mData[..mLen]
    }

    /** Type 0, length 0; the data array is left as it was allocated. */
    constructor ()
      ensures Valid() && fresh(mData)
      ensures mType == 0 && mLen == 0
    {
      mType, mLen := 0, 0;
      mData := new uint8[MAX_SIZE];
    }

    /** Copies exactly `len` bytes of `buffer`; the length may not exceed the array. */
    constructor FromBytes(typ: uint8, buffer: seq<uint8>, len: uint8)
      requires len <= MAX_SIZE && len <= |buffer|
      ensures Valid() && fresh(mData)
      ensures mType == typ && mLen == len && Data() == buffer[..len]
    {
      mType, mLen := typ, len;
      var data := new uint8[MAX_SIZE];
      Memcpy(data, 0, buffer[..len]);
      mData := data;
    }

    /** The copy constructor: same type, same length, same first `len` bytes. */
    constructor Copy(address: SeanetAddress)
      requires address.Valid() && address.mLen <= MAX_SIZE
      ensures Valid() && fresh(mData)
      ensures mType == address.mType && mLen == address.mLen && Data() == address.Data()
    {
      mType, mLen := address.mType, address.mLen;
      var data := new uint8[MAX_SIZE];
      Memcpy(data, 0, address.mData[..address.mLen]);
      mData := data;
    }

    /** `fromAddress` as written: `CopyAllTo` fills the 22-byte stack buffer with
        `wire` (the rest of it is whatever `scratch` held) and returns
        `|wire|`, which is then used as the number of data bytes to copy.
        Only the first `MAX_SIZE` of them can land in `m_data`; a longer
        copy writes `copied - MAX_SIZE` bytes past it. */
    method FromAddressAsWritten(wire: seq<uint8>, scratch: seq<uint8>) returns (copied: nat)
      requires Valid()
      requires |scratch| == GetSize() && 2 <= |wire| <= GetSize()
      modifies this, mData
      ensures Valid()
      ensures copied == |wire|
      ensures mType == wire[0] && mLen == wire[1]
      ensures copied > mData.Length <==> |wire| > MAX_SIZE
      ensures var kept := Min(copied, MAX_SIZE);
        && mData[..kept] == (wire + scratch[|wire|..])[2..2 + kept]
        && mData[kept..] == old(mData[kept..])
    {
      var buffer := wire + scratch[|wire|..];
      copied := |wire|;
      mType := buffer[0];
      mLen := buffer[1];
      Memcpy(mData, 0, buffer[2..2 + Min(copied, MAX_SIZE)]);
    }

    /** `fromAddress` as evidently intended: copy the `len` bytes the length byte announces. */
    method FromAddress(wire: seq<uint8>, scratch: seq<uint8>)
      requires Valid()
      requires |scratch| == GetSize() && WellFormed(wire)
      modifies this, mData
      ensures Valid() && mLen <= MAX_SIZE
      ensures mType == wire[0] && mLen == wire[1] && Data() == wire[2..]
    {
      var buffer := wire + scratch[|wire|..];
      mType := buffer[0];
      mLen := buffer[1];
      Memcpy(mData, 0, buffer[2..2 + mLen]);
    }

    /** `toAddress`: the wire form `[type, len, data[0..len)]`, `len + 2` bytes long. */
    method ToAddress() returns (wire: seq<uint8>)
      requires Valid() && mLen <= MAX_SIZE
      ensures |wire| == mLen + 2 && WellFormed(wire)
      ensures wire[0] == mType && wire[1] == mLen && wire[2..] == Data()
    {
      var buffer := new uint8[GetSize()];
      buffer[0] := mType;
      buffer[1] := mLen;
      Memcpy(buffer, 2, mData[..mLen]);
      wire := buffer[..mLen + 2];
    }
  }

  /** Reading a well-formed wire form into an address and writing it back
      yields the same bytes: type, length and data survive. */
  method FromThenTo(wire: seq<uint8>, scratch: seq<uint8>) returns (back: seq<uint8>)
    requires WellFormed(wire) && |scratch| == GetSize()
    ensures back == wire
  {
    var a := new SeanetAddress();
    a.FromAddress(wire, scratch);
    back := a.ToAddress();
  }

  /** The smaller of two lengths. */
  function Min(a: nat, b: nat): nat
  {
    if a <= b then a else b
  }

  /** The copy `fromAddress` performs overruns the 20-byte data array for
      every address of 19 or 20 bytes: `CopyAllTo` returns the length plus the
      two header bytes, so `len - 18` bytes are written past `m_data` and read
      past the 22-byte stack buffer. */
  method AsWrittenOverrunsLongAddresses(wire: seq<uint8>, scratch: seq<uint8>) returns (copied: nat, capacity: nat)
    requires WellFormed(wire) && wire[1] >= 19 && |scratch| == GetSize()
    ensures capacity == MAX_SIZE
    ensures copied > capacity && copied - capacity == wire[1] - 18
    ensures 2 + copied > GetSize()
  {
    var a := new SeanetAddress();
    copied := a.FromAddressAsWritten(wire, scratch);
    capacity := a.mData.Length;
  }

  /** Below 19 bytes the as-written copy stays inside the array: the two extra
      bytes it copies land past `len`, so the address still holds its data. */
  method AsWrittenKeepsShortAddresses(wire: seq<uint8>, scratch: seq<uint8>) returns (data: seq<uint8>)
    requires WellFormed(wire) && wire[1] <= 18 && |scratch| == GetSize()
    ensures data == wire[2..]
  {
    var a := new SeanetAddress();
    var copied := a.FromAddressAsWritten(wire, scratch);
    assert Min(copied, MAX_SIZE) == copied;
    assert a.mData[..a.mLen] == a.mData[..copied][..a.mLen];
    data := a.mData[..a.mLen];
  }
}
