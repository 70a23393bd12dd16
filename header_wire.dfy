/** The wire layout shared by the three Seanet header classes: one byte each
    for the application type, the protocol type and the destination flag, in
    that order, and for the 4-byte variant the interface number after them. */
module HeaderWire {
  import opened Bytes

  /** The three bytes every Seanet header carries. */
  datatype Fields = Fields(app: uint8, proto: uint8, dst: uint8)

  const SIZE3: nat := 3
  const SIZE4: nat := 4

  /** What `Serialize` writes for a 3-byte header. */
  function Encode3(f: Fields): (r: seq<uint8>)
    ensures |r| == SIZE3
    ensures r[0] == f.app && r[1] == f.proto && r[2] == f.dst
  {
    [f.app, f.proto, f.dst]
  }

  /** What `Deserialize` reads back from the first three bytes; reading is the
      inverse of writing, so re-encoding gives those bytes back. */
  function Decode3(b: seq<uint8>): (f: Fields)
    requires |b| >= SIZE3
    ensures Encode3(f) == b[..SIZE3]
  {
    Fields(b[0], b[1], b[2])
  }

  /** Writing then reading a 3-byte header gives every field back. */
  lemma Decode3Encode3(f: Fields)
    ensures Decode3(Encode3(f)) == f
  {
  }

  /** What `Serialize` writes for the 4-byte header: the three fields, then the interface number. */
  function Encode4(f: Fields, iface: uint8): (r: seq<uint8>)
    ensures |r| == SIZE4
    ensures r[..SIZE3] == Encode3(f) && r[3] == iface
  {
    Encode3(f) + [iface]
  }

  /** What `Deserialize` reads back from the first four bytes. */
  function Decode4(b: seq<uint8>): (r: (Fields, uint8))
    requires |b| >= SIZE4
    ensures Encode4(r.0, r.1) == b[..SIZE4]
  {
    (Decode3(b), b[3])
  }

  /** Writing then reading a 4-byte header gives all four fields back. */
  lemma Decode4Encode4(f: Fields, iface: uint8)
    ensures Decode4(Encode4(f, iface)) == (f, iface)
  {
  }
}
