/** The storage client (`StorageClientApplicationv4`): it probes its
    switch once, then alternates between announcing its data EID (twenty
    '3' bytes) to the switch and asking the resolver where that EID lives,
    and requests the data from the first address the resolver returns. */
module StorageClient {
  import opened Bytes
  import opened Wrappers
  import opened Protocol
  import opened SeanetEid
  import ResolverLegacy
  import ResolverV4

  /** The EID the client stores and fetches: twenty '3' characters. */
  function DataEid(): (e: Eid)
    ensures forall i | 0 <= i < EIDSIZE :: e[i] == 0x33
  {
    Repeat(0x33, EIDSIZE)
  }

  /** Offset of the first address in a reply: right after the count byte. */
  const FIRST_ADDR: nat := EIDSIZE + 1

  /** The data request a resolver reply leads to: when the count byte says
      at least one address, the reply's EID is requested from the address
      in bytes 21-38, on the switch port; otherwise nothing. */
  function ReplyRequest(buffer: seq<uint8>, decode: seq<uint8> -> Locator, switchPort: nat): (r: Option<Packet>)
    requires |buffer| == MAX_PAYLOAD_LEN
    ensures r.Some? <==> buffer[EIDSIZE] >= 1
    ensures r.Some? ==> r.value == Packet(SWITCH_APPLICATION, REQUEST_DATA, IS_DST, Node(decode(buffer[FIRST_ADDR..FIRST_ADDR + ADDR_LEN])),
                                          switchPort, FromBuffer(buffer))
  {
    if buffer[EIDSIZE] >= 1 then
      Some(Packet(SWITCH_APPLICATION, REQUEST_DATA, IS_DST, Node(decode(buffer[FIRST_ADDR..FIRST_ADDR + ADDR_LEN])), switchPort,
                  GetInto(FromBuffer(buffer), Zeros(EIDSIZE))))
    else None
  }

  /** The port the reply handler decodes, little-endian from bytes 37-38
      (and then does not use: the request goes to the switch port). */
  function ReplyPort(buffer: seq<uint8>): (p: nat)
    requires |buffer| == MAX_PAYLOAD_LEN
    ensures p < 0x1_0000 && p % 256 == buffer[FIRST_ADDR + 16] && p / 256 == buffer[FIRST_ADDR + 17]
  {
    PortOf(buffer[FIRST_ADDR + 16], buffer[FIRST_ADDR + 17])
  }

  /** Fed a legacy resolver answer, the client requests the EID it asked
      about from the first registered address iff at least one address is
      registered, and decodes that address's bytes 16-17 as the port. */
  lemma ClientFollowsLegacyAnswer(se: Eid, v: seq<uint8>, scratch: seq<uint8>, decode: seq<uint8> -> Locator, switchPort: nat)
    requires ResolverLegacy.ValueOk(v) && |scratch| == MAX_PAYLOAD_LEN
    ensures var answer := ResolverLegacy.Answer(se, v, scratch);
      && ReplyRequest(answer, decode, switchPort)
         == (if v[0] >= 1 then Some(Packet(SWITCH_APPLICATION, REQUEST_DATA, IS_DST, Node(decode(ResolverLegacy.Slot(v, 0))), switchPort, se))
             else None)
      && ReplyPort(answer) == PortOf(ResolverLegacy.Slot(v, 0)[16], ResolverLegacy.Slot(v, 0)[17])
  {
    var answer := ResolverLegacy.Answer(se, v, scratch);
    assert answer[EIDSIZE] == v[0];
    assert answer[FIRST_ADDR..FIRST_ADDR + ADDR_LEN] == ResolverLegacy.Slot(v, 0) by {
      assert answer[EIDSIZE..EIDSIZE + ResolverLegacy.VALUE_SIZE] == v;
    }
    assert FromBuffer(answer) == se;
  }

  /** Fed a page of the paginated resolver instead, the client reads the
      page's finished flag as the count: it requests only on the last page,
      and from the address made of the page's count byte followed by the
      first 17 bytes of the page's first address. */
  lemma ClientMisreadsPagedAnswer(se: Eid, list: seq<Addr>, k: nat, scratch: seq<uint8>, decode: seq<uint8> -> Locator, switchPort: nat)
    requires |scratch| == MAX_PAYLOAD_LEN && k < ResolverV4.NumPages(|list|)
    ensures var page, lo, hi := ResolverV4.PageBody(se, list, k, scratch), ResolverV4.PageStart(k), ResolverV4.PageEnd(k, |list|);
      && (ReplyRequest(page, decode, switchPort).Some? <==> k == ResolverV4.NumPages(|list|) - 1)
      && (k == ResolverV4.NumPages(|list|) - 1 ==>
            ReplyRequest(page, decode, switchPort).value.to == Node(decode([hi - lo] + list[lo][..ADDR_LEN - 1])))
  {
    var page, lo, hi := ResolverV4.PageBody(se, list, k, scratch), ResolverV4.PageStart(k), ResolverV4.PageEnd(k, |list|);
    ResolverV4.PageBounds(k, |list|);
    ResolverV4.PageHeader(se, list, k, scratch);
    ResolverV4.PageSlots(se, list, k, scratch);
    assert ResolverV4.SlotAt(lo) == EIDSIZE + 2;
    assert page[EIDSIZE + 2..EIDSIZE + 20] == list[lo];
    assert page[FIRST_ADDR..FIRST_ADDR + ADDR_LEN] == [hi - lo] + list[lo][..ADDR_LEN - 1];
  }

  class StorageClientApplication {
    const count: uint32
    const switchAddress: Locator
    const switchPort: nat
    const resolverAddress: Locator
    const resolverPort: nat
    /** `m_sent`: how many announce/lookup rounds have been started. */
    var sentCount: nat
    /** `m_neigh_delay_table`. */
    var neighDelay: map<Locator, int>
    var sent: seq<Packet>

    /** No more rounds are started than `m_count` allows. */
    ghost predicate Valid()
      reads this
    {
      sentCount <= count
    }

    constructor (count: uint32, switchAddress: Locator, switchPort: nat, resolverAddress: Locator, resolverPort: nat)
      ensures Valid()
      ensures this.count == count && this.switchAddress == switchAddress && this.switchPort == switchPort
      ensures this.resolverAddress == resolverAddress && this.resolverPort == resolverPort
      ensures sentCount == 0 && neighDelay == map[] && sent == []
    {
      this.count, this.switchAddress, this.switchPort := count, switchAddress, switchPort;
      this.resolverAddress, this.resolverPort := resolverAddress, resolverPort;
      sentCount, neighDelay, sent := 0, map[], [];
    }

    method SendPacket(p: Packet)
      modifies this`sent
      ensures sent == old(sent) + [p]
    {
      sent := sent + [p];
    }

    /** `StartApplication`: `Write` is scheduled and the switch probed
        (`NeighInfoDetec`) with ten '6' bytes. */
    method StartApplication() returns (scheduleWrite: bool)
      modifies this`sent
      ensures scheduleWrite
      ensures sent == old(sent) + [Packet(NEIGH_INFO_APPLICATION, NEIGH_INFO_RECEIVE, IS_DST, Node(switchAddress), switchPort, ProbeBody())]
    {
      SendPacket(Packet(NEIGH_INFO_APPLICATION, NEIGH_INFO_RECEIVE, IS_DST, Node(switchAddress), switchPort, ProbeBody()));
      return true;
    }

    /** `Write`: the data EID is announced to the switch every time; while
        the count allows, a round is counted and `Read` scheduled. */
    method Write() returns (scheduleRead: bool)
      requires Valid()
      modifies this`sentCount, this`sent
      ensures Valid()
      ensures sent == old(sent) + [Packet(SWITCH_APPLICATION, RESEIVE_DATA, IS_DST, Node(switchAddress), switchPort, DataEid())]
      ensures scheduleRead <==> old(sentCount) < count
      ensures sentCount == if scheduleRead then old(sentCount) + 1 else old(sentCount)
    {
      var buffer := NewBuffer(DataEid());
      SendPacket(Packet(SWITCH_APPLICATION, RESEIVE_DATA, IS_DST, Node(switchAddress), switchPort, buffer[..]));
      scheduleRead := false;
      if sentCount < count {
        scheduleRead := true;
        sentCount := sentCount + 1;
      }
    }

    /** `Read`: the resolver is asked about the data EID every time (with
        the switch protocol's `REQUEST_DATA` code, which is the resolver's
        `REQUEST_EID_NA`); `Write` is scheduled again while the count
        allows. */
    method Read() returns (scheduleWrite: bool)
      requires Valid()
      modifies this`sent
      ensures sent == old(sent) + [Packet(RESOLUTION_APPLICATION, REQUEST_EID_NA, IS_DST, Node(resolverAddress), resolverPort, DataEid())]
      ensures scheduleWrite <==> sentCount < count
    {
      var buffer := NewBuffer(DataEid());
      SendPacket(Packet(RESOLUTION_APPLICATION, REQUEST_DATA, IS_DST, Node(resolverAddress), resolverPort, buffer[..]));
      scheduleWrite := sentCount < count;
    }

    /** `ResolutionReplyHandle`: sends the request `ReplyRequest` describes. */
    method ResolutionReplyHandle(buffer: seq<uint8>, decode: seq<uint8> -> Locator)
      requires |buffer| == MAX_PAYLOAD_LEN
      modifies this`sent
      ensures sent == old(sent) + match ReplyRequest(buffer, decode, switchPort) case Some(p) => [p] case None => []
    {
      var ipnum := buffer[EIDSIZE];
      if ipnum >= 1 {
        var ipv4 := decode(buffer[FIRST_ADDR..FIRST_ADDR + ADDR_LEN]);
        var _ := ReplyPort(buffer);
        var res := GetInto(FromBuffer(buffer), Zeros(EIDSIZE));
        SendPacket(Packet(SWITCH_APPLICATION, REQUEST_DATA, IS_DST, Node(ipv4), switchPort, res));
      }
    }

    /** `ResolutionProtocolHandle`: only `REPLY_EID_NA` is handled. */
    method ResolutionProtocolHandle(buffer: seq<uint8>, protocolType: uint8, decode: seq<uint8> -> Locator)
      requires |buffer| == MAX_PAYLOAD_LEN
      modifies this`sent
      ensures protocolType == REPLY_EID_NA ==>
        sent == old(sent) + match ReplyRequest(buffer, decode, switchPort) case Some(p) => [p] case None => []
      ensures protocolType != REPLY_EID_NA ==> sent == old(sent)
    {
      if protocolType == REPLY_EID_NA {
        ResolutionReplyHandle(buffer, decode);
      }
    }

    /** `LookUpNeighDelay`: the stored delay, or -1 for an unknown neighbour. */
    function LookUpNeighDelay(l: Locator): (r: int)
      reads this
      ensures l in neighDelay ==> r == neighDelay[l]
      ensures l !in neighDelay ==> r == -1
    {
      if l in neighDelay then neighDelay[l] else -1
    }

    /** `AddNeighDelay`: stores `t` only while the lookup is not positive
        (`Time::IsNegative` holds for zero as well), so the first positive
        sample stays; `t` is answered either way. */
    method AddNeighDelay(l: Locator, t: int) returns (r: int)
      modifies this`neighDelay
      ensures r == t
      ensures old(LookUpNeighDelay(l)) <= 0 ==> neighDelay == old(neighDelay)[l := t]
      ensures old(LookUpNeighDelay(l)) > 0 ==> neighDelay == old(neighDelay)
    {
      var entry := LookUpNeighDelay(l);
      if entry <= 0 {
        neighDelay := neighDelay[l := t];
      }
      return t;
    }

    /** `NeigthInfoProtocolHandle`: a probe is echoed to the sender at the
        port decoded little-endian from bytes 16-17 of its serialized
        address; a probe answer records the measured `sample`. */
    method NeigthInfoProtocolHandle(payload: seq<uint8>, protocolType: uint8, from: Addr, decode: seq<uint8> -> Locator, sample: int)
      modifies this`sent, this`neighDelay
      ensures protocolType == NEIGH_INFO_RECEIVE ==>
        && neighDelay == old(neighDelay)
        && sent == old(sent) + [Packet(NEIGH_INFO_APPLICATION, NEIGH_INFO_REPLY, IS_DST, Node(decode(from)), PortOf(from[16], from[17]), payload)]
      ensures protocolType == NEIGH_INFO_REPLY ==>
        && sent == old(sent)
        && neighDelay == (if old(LookUpNeighDelay(decode(from))) <= 0 then old(neighDelay)[decode(from) := sample] else old(neighDelay))
      ensures protocolType != NEIGH_INFO_RECEIVE && protocolType != NEIGH_INFO_REPLY ==>
        sent == old(sent) && neighDelay == old(neighDelay)
    {
      var ipv4 := decode(from);
      if protocolType == NEIGH_INFO_RECEIVE {
        var port := PortOf(from[16], from[17]);
        SendPacket(Packet(NEIGH_INFO_APPLICATION, NEIGH_INFO_REPLY, IS_DST, Node(ipv4), port, payload));
      } else if protocolType == NEIGH_INFO_REPLY {
        var _ := AddNeighDelay(ipv4, sample);
      }
    }
  }
}
