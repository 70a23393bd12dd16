/** The legacy resolution server (`ResolutionApplication` of
    storage-resolution-application.cc): every EID owns a 55-byte heap
    buffer, a count byte followed by three 18-byte address slots, updated
    in place; registrations beyond the third are dropped. */
module ResolverLegacy {
  import opened Bytes
  import opened Wrappers
  import opened Protocol
  import opened SeanetEid

  /** `EID_NA_TABLE_VALUE_SIZE`: the count byte and three slots. */
  const VALUE_SIZE: nat := 55

  /** How many addresses a value has room for. */
  const MAX_ADDRS: nat := 3

  /** A table value as the server keeps it: 55 bytes, count at most three. */
  predicate ValueOk(v: seq<uint8>)
  {
    |v| == VALUE_SIZE && v[0] <= MAX_ADDRS
  }

  /** Slot `j` of a value: bytes `1 + 18j` to `18 + 18j`. */
  function Slot(v: seq<uint8>, j: nat): seq<uint8>
    requires |v| == VALUE_SIZE && j < MAX_ADDRS
  {
    v[1 + 18 * j..19 + 18 * j]
  }

  /** The value a first registration of `a` allocates: zeroed, the address
      in slot 0, count one. */
  function FirstValue(a: Addr): (v: seq<uint8>)
    ensures ValueOk(v) && v[0] == 1 && Slot(v, 0) == a
    ensures forall i | 19 <= i < VALUE_SIZE :: v[i] == 0
  {
    Overwrite(Zeros(VALUE_SIZE), 1, a)[0 := 1]
  }

  /** A later registration of `a`: into the next free slot with the count
      raised by one, or, with all three slots taken, nothing. */
  function NextValue(v: seq<uint8>, a: Addr): (r: seq<uint8>)
    requires ValueOk(v)
    ensures ValueOk(r)
    ensures v[0] < MAX_ADDRS ==> r[0] == v[0] + 1 && Slot(r, v[0] as nat) == a
    ensures v[0] < MAX_ADDRS ==> forall i | 0 < i < VALUE_SIZE && !(1 + 18 * v[0] <= i < 19 + 18 * v[0]) :: r[i] == v[i]
    ensures v[0] == MAX_ADDRS as uint8 ==> r == v
  {
    if v[0] < 3 then Overwrite(v, 1 + 18 * v[0], a)[0 := v[0] + 1] else v
  }

  /** The value after registering `a` over what the table held for the EID. */
  function Registered(prev: Option<seq<uint8>>, a: Addr): seq<uint8>
    requires prev.Some? ==> ValueOk(prev.value)
  {
    match prev
    case None => FirstValue(a)
    case Some(v) => NextValue(v, a)
  }

  /** The value after registering `addrs` one after the other, starting
      from no entry. */
  function RegisterAll(addrs: seq<Addr>): (v: seq<uint8>)
    requires addrs != []
    ensures ValueOk(v)
  {
    if |addrs| == 1 then FirstValue(addrs[0])
    else NextValue(RegisterAll(addrs[..|addrs| - 1]), addrs[|addrs| - 1])
  }

  /** A reply body: the EID, the 55-byte value, and whatever the rest of the
      uninitialised 255-byte buffer held. */
  function Answer(se: Eid, v: seq<uint8>, scratch: seq<uint8>): (r: seq<uint8>)
    requires |v| == VALUE_SIZE && |scratch| == MAX_PAYLOAD_LEN
    ensures |r| == MAX_PAYLOAD_LEN
    ensures r[..EIDSIZE] == se && r[EIDSIZE..EIDSIZE + VALUE_SIZE] == v
    ensures r[EIDSIZE + VALUE_SIZE..] == scratch[EIDSIZE + VALUE_SIZE..]
  {
    se + v + scratch[EIDSIZE + VALUE_SIZE..]
  }

  /** The buffer a first registration allocates. */
  method NewValue(a: Addr) returns (buf: array<uint8>)
    ensures fresh(buf) && buf[..] == FirstValue(a)
  {
    buf := NewBuffer(Zeros(VALUE_SIZE));
    Memcpy(buf, 1, a);
    buf[0] := 1;
  }

  /** A later registration, in place: `memcpy` into slot `buf[0]` and
      `buf[0]++` while fewer than three addresses are held. */
  method AppendValue(buf: array<uint8>, a: Addr)
    requires ValueOk(buf[..])
    modifies buf
    ensures buf[..] == NextValue(old(buf[..]), a)
  {
    var n := buf[0];
    if n < 3 {
      Memcpy(buf, 1 + 18 * n as nat, a);
      buf[0] := n + 1;
    }
  }

  class ResolutionApplication {
    var table: map<Eid, array<uint8>>
    var sent: seq<Packet>
    const port: nat

    /** Every buffer is a well-formed value and no two EIDs share one. */
    ghost predicate Valid()
      reads this, table.Values
    {
      && (forall e | e in table :: ValueOk(table[e][..]))
      && (forall e1, e2 | e1 in table && e2 in table && e1 != e2 :: table[e1] != table[e2])
    }

    /** The table's contents: each EID's buffer as bytes. */
    ghost function Values(): map<Eid, seq<uint8>>
      reads this, table.Values
    {
      map e | e in table :: table[e][..]
    }

    constructor (port: nat)
      ensures Valid() && Values() == map[] && sent == [] && this.port == port
    {
      table, sent := map[], [];
      this.port := port;
    }

    /** `LookupEIDNATable`: the buffer, or NULL for an EID never registered. */
    function LookupEIDNATable(se: Eid): (r: Option<array<uint8>>)
      reads this
      ensures r.None? <==> se !in table
      ensures r.Some? ==> r.value == table[se]
    {
      if se in table then Some(table[se]) else None
    }

    /** `AddEIDNATable`: a first registration allocates a new zeroed buffer
        holding the address with count one; a later one writes the address
        into the next free slot and raises the count, unless all three are
        taken. Nothing else in the table changes. */
    method AddEIDNATable(se: Eid, to: Addr) returns (buf: array<uint8>)
      requires Valid()
      modifies this`table, table.Values
      ensures Valid()
      ensures table.Keys == old(table.Keys) + {se} && buf == table[se]
      ensures Values() == old(Values())[se := Registered(if se in old(Values()) then Some(old(Values())[se]) else None, to)]
    {
      var lh := LookupEIDNATable(se);
      if lh.None? {
        buf := AddNew(se, to);
      } else {
        buf := lh.value;
        AddExisting(se, to);
      }
    }

    /** First registration of `se`: a new buffer joins the table. */
    method AddNew(se: Eid, to: Addr) returns (buf: array<uint8>)
      requires Valid() && se !in table
      modifies this`table
      ensures Valid()
      ensures table.Keys == old(table.Keys) + {se} && buf == table[se]
      ensures Values() == old(Values())[se := FirstValue(to)]
    {
      buf := NewValue(to);
      table := table[se := buf];
      assert Values() == old(Values())[se := FirstValue(to)];
    }

    /** Later registration of `se`: its own buffer is updated in place and
        no other EID's buffer is touched. */
    method AddExisting(se: Eid, to: Addr)
      requires Valid() && se in table
      modifies table[se]
      ensures Valid()
      ensures Values() == old(Values())[se := NextValue(old(Values())[se], to)]
    {
      AppendValue(table[se], to);
      forall e | e in table && e != se
        ensures table[e][..] == old(table[e][..])
      {
      }
      assert Values() == old(Values())[se := NextValue(old(Values())[se], to)];
    }

    method SendPacket(body: seq<uint8>, to: Addr)
      modifies this`sent
      ensures sent == old(sent) + [ReplyPacket(body, to, port)]
    {
      sent := sent + [ReplyPacket(body, to, port)];
    }

    /** `RequestHandle`: nothing for an unknown EID; otherwise one reply
        holding the EID and its 55-byte value. */
    method RequestHandle(buffer: seq<uint8>, from: Addr, scratch: seq<uint8>)
      requires Valid() && |buffer| >= EIDSIZE && |scratch| == MAX_PAYLOAD_LEN
      modifies this`sent
      ensures var se := FromBuffer(buffer);
        sent == old(sent) + (if se in Values() then [ReplyPacket(Answer(se, Values()[se], scratch), from, port)] else [])
    {
      var se := FromBuffer(buffer);
      var value := LookupEIDNATable(se);
      if value.Some? {
        var res := NewBuffer(scratch);
        Memcpy(res, 0, se);
        Memcpy(res, EIDSIZE, value.value[..]);
        assert res[..] == Answer(se, Values()[se], scratch);
        SendPacket(res[..], from);
      }
    }

    /** `ResolutionProtocolHandle`: only requests and registrations have an effect. */
    method ResolutionProtocolHandle(buffer: seq<uint8>, protocolType: uint8, from: Addr, scratch: seq<uint8>)
      requires Valid() && |buffer| >= EIDSIZE && |scratch| == MAX_PAYLOAD_LEN
      modifies this`table, table.Values, this`sent
      ensures Valid()
      ensures var se := FromBuffer(buffer);
        protocolType == REQUEST_EID_NA ==>
          Values() == old(Values()) &&
          sent == old(sent) + (if se in Values() then [ReplyPacket(Answer(se, Values()[se], scratch), from, port)] else [])
      ensures var se := FromBuffer(buffer);
        protocolType == REGIST_EID_NA ==>
          sent == old(sent) &&
          Values() == old(Values())[se := Registered(if se in old(Values()) then Some(old(Values())[se]) else None, from)]
      ensures protocolType != REQUEST_EID_NA && protocolType != REGIST_EID_NA ==>
        Values() == old(Values()) && sent == old(sent)
    {
      if protocolType == REQUEST_EID_NA {
        RequestHandle(buffer, from, scratch);
      } else if protocolType == REGIST_EID_NA {
        RegistHandle(buffer, from);
      }
    }

    /** `RegistHandle`: the EID is the first twenty payload bytes; the sender's address is stored. */
    method RegistHandle(buffer: seq<uint8>, from: Addr)
      requires Valid() && |buffer| >= EIDSIZE
      modifies this`table, table.Values
      ensures Valid()
      ensures var se := FromBuffer(buffer);
        Values() == old(Values())[se := Registered(if se in old(Values()) then Some(old(Values())[se]) else None, from)]
    {
      var se := FromBuffer(buffer);
      var _ := AddEIDNATable(se, from);
    }
  }

  /** A run of registrations for one EID keeps the first three addresses,
      duplicates included, in arrival order, counts them, and leaves the
      unused slots zero. */
  lemma {:induction false} RegisterAllKeepsFirstThree(addrs: seq<Addr>)
    requires addrs != []
    ensures var v, n := RegisterAll(addrs), if |addrs| < MAX_ADDRS then |addrs| else MAX_ADDRS;
      && v[0] as nat == n
      && (forall j | 0 <= j < n :: Slot(v, j) == addrs[j])
      && (forall i | 1 + 18 * n <= i < VALUE_SIZE :: v[i] == 0)
  {
    if |addrs| > 1 {
      var init := addrs[..|addrs| - 1];
      RegisterAllKeepsFirstThree(init);
      var u := RegisterAll(init);
      forall j | 0 <= j < u[0] as nat
        ensures Slot(RegisterAll(addrs), j) == addrs[j]
      {
        assert init[j] == addrs[j];
      }
    }
  }
}
