/** The multicast client (`MulticastClientApplicationv4`): a writer
    registers a stream of synthesised group EIDs with its switch as a
    source, a reader asks its switch to join the groups, one EID per
    scheduled event, until `m_count` are sent. */
module MulticastClient {
  import opened Bytes
  import opened Protocol
  import opened SeanetEid
  import ResolverV4

  /** `EID_UNIT`: how many groups one writer creates. */
  const EID_UNIT: nat := 7000

  /** `m_count` for the configured role: one unit per writer switch for a
      reader (a 32-bit product), one unit for a writer, ten otherwise. */
  function CountFor(functionType: string, totalSwitchNum: uint32): (c: uint32)
    ensures functionType == "Read" && totalSwitchNum * EID_UNIT < 0x1_0000_0000 ==> c == totalSwitchNum * EID_UNIT
    ensures functionType == "Write" ==> c == EID_UNIT
    ensures functionType != "Read" && functionType != "Write" ==> c == 10
  {
    if functionType == "Read" then (totalSwitchNum * 7000) % 0x1_0000_0000
    else if functionType == "Write" then 7000
    else 10
  }

  /** The twenty '1' characters every synthesised EID starts from. */
  function Ones(): (e: Eid)
    ensures forall i | 0 <= i < EIDSIZE :: e[i] == 0x31
  {
    Repeat(0x31, EIDSIZE)
  }

  /** `+=` on a byte: the sum truncated to eight bits. */
  function AddByte(b: uint8, x: nat): uint8
  {
    (b + x) % 256
  }

  /** The EID a writer registers as its `n`-th group: byte 18 counts
      `n mod 100`, byte 17 the hundreds (cast to a byte), byte 16 names the
      writer. */
  function WriteEid(n: nat, switchIndex: uint32): (e: Eid)
    ensures forall i | 0 <= i < EIDSIZE && (i < 16 || i == 19) :: e[i] == 0x31
    ensures e[18] == 0x31 + n % 100 && e[18] < 0x31 + 100
  {
    Ones()[18 := AddByte(0x31, n % 100)][17 := AddByte(0x31, (n / 100) % 256)][16 := AddByte(0x31, switchIndex)]
  }

  /** While the hundreds byte does not wrap (fewer than 25600 groups), no
      two (counter, writer) pairs below 256 give the same EID: every group a
      writer registers is new, and writers never collide. */
  lemma WriteEidInjective(m: nat, w: uint32, m': nat, w': uint32)
    requires m < 25600 && m' < 25600 && w < 256 && w' < 256
    requires m != m' || w != w'
    ensures WriteEid(m, w) != WriteEid(m', w')
  {
    var e, e' := WriteEid(m, w), WriteEid(m', w');
    if w != w' {
      AddByteInjective(w, w');
      assert e[16] != e'[16];
    } else if m % 100 != m' % 100 {
      AddByteInjective(m % 100, m' % 100);
      assert e[18] != e'[18];
    } else {
      DistinctHundreds(m, m');
      AddByteInjective((m / 100) % 256, (m' / 100) % 256);
      assert e[17] != e'[17];
    }
  }

  /** Two counters below 25600 with the same units differ in their hundreds,
      and the hundreds fit a byte. */
  lemma DistinctHundreds(m: nat, m': nat)
    requires m < 25600 && m' < 25600 && m != m' && m % 100 == m' % 100
    ensures (m / 100) % 256 != (m' / 100) % 256
  {
    var h, h' := m / 100, m' / 100;
    assert m == 100 * h + m % 100 && m' == 100 * h' + m' % 100;
    assert h < 256 && h' < 256;
  }

  /** Adding an offset below 256 to the byte '1' is injective, although
      past 206 the sum wraps to `x - 207`. */
  lemma AddByteInjective(x: nat, y: nat)
    requires x < 256 && y < 256 && x != y
    ensures AddByte(0x31, x) != AddByte(0x31, y)
  {
    assert AddByte(0x31, x) == if x < 207 then 0x31 + x else x - 207;
    assert AddByte(0x31, y) == if y < 207 then 0x31 + y else y - 207;
  }

  /** The writer a reader's `n`-th request goes to: `n / 7000` plus the
      reader's index, in 32 bits, cast to a byte, modulo the writer count. */
  function ReadWriter(n: nat, switchIndex: uint32, totalSwitchNum: uint32): (w: nat)
    requires totalSwitchNum >= 1
    ensures w < totalSwitchNum && w < 256
  {
    var b := Truncate8((n / 7000 + switchIndex) % 0x1_0000_0000);
    ModBelow(b, totalSwitchNum);
    b % totalSwitchNum
  }

  /** A cast to `uint8_t`. */
  function Truncate8(x: nat): (b: uint8)
  {
    x % 256
  }

  lemma ModBelow(b: nat, m: nat)
    requires m >= 1
    ensures b % m < m && b % m <= b
  {
    if b >= m {
      ModBelow(b - m, m);
    }
  }

  /** The EID a reader asks for as its `n`-th request: the same layout,
      with the hundreds (cast to a byte) taken modulo 70 and the writer
      chosen by `ReadWriter`. */
  function ReadEid(n: nat, switchIndex: uint32, totalSwitchNum: uint32): (e: Eid)
    requires totalSwitchNum >= 1
    ensures e[17] < 0x31 + 70 && e[18] < 0x31 + 100
  {
    Ones()[18 := AddByte(0x31, n % 100)][17 := AddByte(0x31, (n / 100) % 256 % 70)][16 := AddByte(0x31, ReadWriter(n, switchIndex, totalSwitchNum))]
  }

  /** A reader's EID differs from twenty '1's only in bytes 16-18, whose
      offsets stay below 100 and 70 without wrapping. */
  lemma ReadEidOffsets(n: nat, switchIndex: uint32, totalSwitchNum: uint32)
    requires totalSwitchNum >= 1
    ensures var e := ReadEid(n, switchIndex, totalSwitchNum);
      && e[18] == 0x31 + n % 100 && e[17] == 0x31 + (n / 100) % 256 % 70
      && e[16] == AddByte(0x31, ReadWriter(n, switchIndex, totalSwitchNum))
    ensures forall i | 0 <= i < 16 || i == 19 :: ReadEid(n, switchIndex, totalSwitchNum)[i] == 0x31
  {
  }

  lemma Shift100(k: nat, r: nat)
    ensures (100 * k + r) / 100 == k + r / 100 && (100 * k + r) % 100 == r % 100
  {
  }

  lemma Shift70(k: nat, r: nat)
    ensures (70 * k + r) / 70 == k + r / 70 && (70 * k + r) % 70 == r % 70
  {
  }

  /** Two counters below 100 * 256 with the same remainder modulo 7000
      agree on the reader's and the writer's counter bytes. */
  lemma CounterBytes(n: nat)
    requires n < 25600
    ensures (n % 7000) % 100 == n % 100
    ensures ((n % 7000) / 100) % 256 == (n / 100) % 256 % 70
  {
    var q, r := n / 7000, n % 7000;
    assert n == 100 * (70 * q) + r;
    Shift100(70 * q, r);
    var t := r / 100;
    assert t < 70;
    assert n / 100 == 70 * q + t;
    assert n / 100 < 256;
    Shift70(q, t);
  }

  /** The writer counter a reader's `n`-th request names: the hundreds
      (cast to a byte, then taken modulo 70) and the units. Past 25600 the
      byte cast wraps, and early groups are asked for again. */
  function ReadGroup(n: nat): (m: nat)
    ensures m < EID_UNIT && m % 100 == n % 100
    ensures m / 100 == (n / 100) % 256 % 70
  {
    var h := (n / 100) % 256 % 70;
    Shift100(h, n % 100);
    h * 100 + n % 100
  }

  /** Every request a reader sends, for any counter, names the EID a writer
      registers under `ReadGroup(n)`. */
  lemma ReadEidIsWriteEid(n: nat, switchIndex: uint32, totalSwitchNum: uint32)
    requires totalSwitchNum >= 1
    ensures ReadEid(n, switchIndex, totalSwitchNum) == WriteEid(ReadGroup(n), ReadWriter(n, switchIndex, totalSwitchNum))
  {
    var m := ReadGroup(n);
    assert (m / 100) % 256 == m / 100;
  }

  /** A reader's `n`-th request (before the hundreds byte wraps, and away
      from multiples of 7000) asks for exactly the group a writer
      registered: the `n mod 7000`-th of writer `(n / 7000 + index) mod
      total` (that index cast to a byte). */
  lemma ReadRequestsWrittenGroup(n: nat, switchIndex: uint32, totalSwitchNum: uint32)
    requires totalSwitchNum >= 1 && n < 25600 && n % 7000 != 0
    ensures 1 <= n % 7000 < EID_UNIT
    ensures ReadEid(n, switchIndex, totalSwitchNum) == WriteEid(n % 7000, ReadWriter(n, switchIndex, totalSwitchNum))
  {
    CounterBytes(n);
  }

  /** A reader's request at a multiple of 7000 asks for a group no writer
      registers: its counter bytes say 0, a writer's first counter is 1. */
  lemma ReadAtUnitBoundaryMissesWrites(n: nat, switchIndex: uint32, totalSwitchNum: uint32, m: nat, w: uint32)
    requires totalSwitchNum >= 1 && n < 25600 && n % 7000 == 0 && 1 <= m <= EID_UNIT
    ensures ReadEid(n, switchIndex, totalSwitchNum) != WriteEid(m, w)
  {
    var q := n / 7000;
    assert n == 100 * (70 * q) + 0;
    Shift100(70 * q, 0);
    Shift70(q, 0);
    var r, e := ReadEid(n, switchIndex, totalSwitchNum), WriteEid(m, w);
    assert r[18] == 0x31 && r[17] == 0x31;
    if m % 100 == 0 {
      assert 1 <= m / 100 <= 70;
      assert e[17] != 0x31;
    } else {
      assert e[18] != 0x31;
    }
  }

  /** What the client reads out of a resolver reply page: the finished
      flag, the count, the first locator and the port in its bytes 16-17. */
  datatype ReplyView = ReplyView(finished: uint8, ipnum: uint8, first: Locator, port: nat)

  /** `ResolutionReplyHandle`: the fields are read (and only logged),
      whatever the count says; `decode` is `Ipv4Address::Deserialize`. */
  function ResolutionReplyHandle(buffer: seq<uint8>, decode: seq<uint8> -> Locator): (v: ReplyView)
    requires |buffer| == MAX_PAYLOAD_LEN
    ensures v.finished == buffer[EIDSIZE] && v.ipnum == buffer[EIDSIZE + 1]
    ensures v.port < 0x1_0000 && v.port % 256 == buffer[EIDSIZE + 18] && v.port / 256 == buffer[EIDSIZE + 19]
  {
    ReplyView(buffer[EIDSIZE], buffer[EIDSIZE + 1], decode(buffer[EIDSIZE + 2..EIDSIZE + 20]),
              PortOf(buffer[EIDSIZE + 18], buffer[EIDSIZE + 19]))
  }

  /** On page `k` of a resolver reply the client reads the page's flag and
      count, the page's first address, and that address's bytes 16-17 as
      the port. */
  lemma ClientReadsResolverPage(se: Eid, list: seq<Addr>, k: nat, scratch: seq<uint8>, decode: seq<uint8> -> Locator)
    requires |scratch| == MAX_PAYLOAD_LEN && k < ResolverV4.NumPages(|list|)
    ensures var v, lo, hi := ResolutionReplyHandle(ResolverV4.PageBody(se, list, k, scratch), decode),
                             ResolverV4.PageStart(k), ResolverV4.PageEnd(k, |list|);
      && lo < |list|
      && v.finished == (if hi == |list| then PACKET_FINISH else PACKET_NOT_FINISH)
      && v.ipnum == hi - lo
      && v.first == decode(list[lo])
      && v.port == PortOf(list[lo][16], list[lo][17])
  {
    var lo := ResolverV4.PageStart(k);
    ResolverV4.PageBounds(k, |list|);
    ResolverV4.PageHeader(se, list, k, scratch);
    ResolverV4.PageSlots(se, list, k, scratch);
    var r := ResolverV4.PageBody(se, list, k, scratch);
    assert ResolverV4.SlotAt(lo) == EIDSIZE + 2;
    assert r[EIDSIZE + 2..EIDSIZE + 20] == list[lo];
    assert r[EIDSIZE + 18] == list[lo][16] && r[EIDSIZE + 19] == list[lo][17];
  }

  class MulticastClientApplication {
    const functionType: string
    const totalSwitchNum: uint32
    const switchIndex: uint32
    const switchAddress: Locator
    const switchPort: nat
    /** `m_count` and `m_sent`. */
    var count: uint32
    var sentCount: nat
    /** `m_neigh_delay_table`. */
    var neighDelay: map<Locator, int>
    var sent: seq<Packet>

    /** No more EIDs are sent than `m_count` allows. */
    ghost predicate Valid()
      reads this
    {
      sentCount <= count
    }

    constructor (functionType: string, totalSwitchNum: uint32, switchIndex: uint32, switchAddress: Locator, switchPort: nat)
      ensures Valid()
      ensures this.functionType == functionType && this.totalSwitchNum == totalSwitchNum && this.switchIndex == switchIndex
      ensures this.switchAddress == switchAddress && this.switchPort == switchPort
      ensures count == 1 && sentCount == 0 && neighDelay == map[] && sent == []
    {
      this.functionType, this.totalSwitchNum, this.switchIndex := functionType, totalSwitchNum, switchIndex;
      this.switchAddress, this.switchPort := switchAddress, switchPort;
      count, sentCount, neighDelay, sent := 1, 0, map[], [];
    }

    /** `StartApplication`: the count for the role, the counter reset, and
        which of `Write` and `Read` get scheduled: "All" runs both, a role
        other than the three runs neither. */
    method StartApplication() returns (scheduleWrite: bool, scheduleRead: bool)
      modifies this`count, this`sentCount
      ensures Valid() && sentCount == 0 && count == CountFor(functionType, totalSwitchNum)
      ensures scheduleWrite <==> functionType == "Write" || functionType == "All"
      ensures scheduleRead <==> functionType == "Read" || functionType == "All"
    {
      if functionType == "Read" {
        count := (totalSwitchNum * 7000) % 0x1_0000_0000;
      } else if functionType == "Write" {
        count := 7000;
      } else {
        count := 10;
      }
      sentCount := 0;
      if functionType == "Write" {
        scheduleWrite, scheduleRead := true, false;
      } else if functionType == "Read" {
        scheduleWrite, scheduleRead := false, true;
      } else if functionType == "All" {
        scheduleWrite, scheduleRead := true, true;
      } else {
        scheduleWrite, scheduleRead := false, false;
      }
    }

    method SendPacket(p: Packet)
      modifies this`sent
      ensures sent == old(sent) + [p]
    {
      sent := sent + [p];
    }

    /** `Write`: while the count allows, the next group is registered with
        the switch as a source and the next `Write` scheduled. */
    method Write() returns (rescheduled: bool)
      requires Valid()
      modifies this`sentCount, this`sent
      ensures Valid()
      ensures old(sentCount) < count ==>
        && rescheduled && sentCount == old(sentCount) + 1
        && sent == old(sent) + [Packet(MULTICAST_APPLICATION, REGIST_TO_SOURCE_DR, IS_DST, Node(switchAddress), switchPort,
                                       WriteEid(sentCount, switchIndex))]
      ensures old(sentCount) >= count ==> !rescheduled && sentCount == old(sentCount) && sent == old(sent)
    {
      var buffer := NewBuffer(Ones());
      if sentCount < count {
        sentCount := sentCount + 1;
        buffer[18] := AddByte(buffer[18], sentCount % 100);
        buffer[17] := AddByte(buffer[17], (sentCount / 100) % 256);
        buffer[16] := AddByte(buffer[16], switchIndex);
        assert buffer[..] == WriteEid(sentCount, switchIndex);
        SendPacket(Packet(MULTICAST_APPLICATION, REGIST_TO_SOURCE_DR, IS_DST, Node(switchAddress), switchPort, buffer[..]));
        return true;
      }
      return false;
    }

    /** `Read`: while the count allows, the switch is asked to join the
        next group and the next `Read` scheduled. */
    method Read() returns (rescheduled: bool)
      requires Valid() && totalSwitchNum >= 1
      modifies this`sentCount, this`sent
      ensures Valid()
      ensures old(sentCount) < count ==>
        && rescheduled && sentCount == old(sentCount) + 1
        && sent == old(sent) + [Packet(MULTICAST_APPLICATION, REGIST_TO_DEST_DR, IS_DST, Node(switchAddress), switchPort,
                                       ReadEid(sentCount, switchIndex, totalSwitchNum))]
      ensures old(sentCount) >= count ==> !rescheduled && sentCount == old(sentCount) && sent == old(sent)
    {
      var buffer := NewBuffer(Ones());
      if sentCount < count {
        sentCount := sentCount + 1;
        buffer[18] := AddByte(buffer[18], sentCount % 100);
        buffer[17] := AddByte(buffer[17], (sentCount / 100) % 256 % 70);
        buffer[16] := AddByte(buffer[16], ReadWriter(sentCount, switchIndex, totalSwitchNum));
        assert buffer[..] == ReadEid(sentCount, switchIndex, totalSwitchNum);
        SendPacket(Packet(MULTICAST_APPLICATION, REGIST_TO_DEST_DR, IS_DST, Node(switchAddress), switchPort, buffer[..]));
        return true;
      }
      return false;
    }

    /** `LookUpNeighDelay`: the stored delay, or -1 for an unknown neighbour. */
    function LookUpNeighDelay(l: Locator): (r: int)
      reads this
      ensures l in neighDelay ==> r == neighDelay[l]
      ensures l !in neighDelay ==> r == -1
    {
      if l in neighDelay then neighDelay[l] else -1
    }

    /** `AddNeighDelay`: stores `t` only while the lookup is not positive
        (`Time::IsNegative` holds for zero as well), so the first positive
        sample stays; `t` is answered either way. */
    method AddNeighDelay(l: Locator, t: int) returns (r: int)
      modifies this`neighDelay
      ensures r == t
      ensures old(LookUpNeighDelay(l)) <= 0 ==> neighDelay == old(neighDelay)[l := t]
      ensures old(LookUpNeighDelay(l)) > 0 ==> neighDelay == old(neighDelay)
    {
      var entry := LookUpNeighDelay(l);
      if entry <= 0 {
        neighDelay := neighDelay[l := t];
      }
      return t;
    }

    /** `NeigthInfoProtocolHandle`: a probe is echoed, with its payload, to
        the sender at the port in bytes 16-17 of the sender's serialized
        address; a probe answer records `sample` (`Simulator::Now () -
        stsh.GetTs ()`) for the sender. */
    method NeigthInfoProtocolHandle(payload: seq<uint8>, protocolType: uint8, from: Addr, decode: seq<uint8> -> Locator, sample: int)
      modifies this`sent, this`neighDelay
      ensures protocolType == NEIGH_INFO_RECEIVE ==>
        && neighDelay == old(neighDelay)
        && sent == old(sent) + [Packet(NEIGH_INFO_APPLICATION, NEIGH_INFO_REPLY, IS_DST, Node(decode(from)), PortOf(from[16], from[17]), payload)]
      ensures protocolType == NEIGH_INFO_REPLY ==>
        && sent == old(sent)
        && neighDelay == (if old(LookUpNeighDelay(decode(from))) <= 0 then old(neighDelay)[decode(from) := sample] else old(neighDelay))
      ensures protocolType != NEIGH_INFO_RECEIVE && protocolType != NEIGH_INFO_REPLY ==>
        sent == old(sent) && neighDelay == old(neighDelay)
    {
      var ipv4 := decode(from);
      if protocolType == NEIGH_INFO_RECEIVE {
        var port := PortOf(from[16], from[17]);
        SendPacket(Packet(NEIGH_INFO_APPLICATION, NEIGH_INFO_REPLY, IS_DST, Node(ipv4), port, payload));
      } else if protocolType == NEIGH_INFO_REPLY {
        var _ := AddNeighDelay(ipv4, sample);
      }
    }
  }
}
