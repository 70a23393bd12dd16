/** The v4 resolution server (`ResolutionApplicationv4`): a table from EID
    to the list of addresses registered for it, appended to on every
    registration, and lookups answered in 255-byte pages of at most ten
    18-byte address slots. */
module ResolverV4 {
  import opened Bytes
  import opened Wrappers
  import opened Protocol
  import opened SeanetEid

  /** Offset of the first address slot: the EID, the flag byte and the count byte.
      A page has ten slots of `ADDR_LEN` (18) bytes; the arithmetic below
      writes 10 and 18 as literals, which the solver handles as linear. */
  const SLOTS_AT: nat := EIDSIZE + 2

  /** Addresses laid end to end, as a run of `CopyTo` calls into
      consecutive 18-byte slots leaves them. */
  function Concat(addrs: seq<Addr>): (r: seq<uint8>)
    ensures |r| == 18 * |addrs|
  {
    if addrs == [] then [] else Concat(addrs[..|addrs| - 1]) + addrs[|addrs| - 1]
  }

  // ---------------------------------------------------------------------
  // The replies, page by page

  /** How many replies a list of `n` addresses needs: ceil(n / 10). */
  function NumPages(n: nat): nat
  {
    (n + 9) / 10
  }

  /** The 255-byte reply buffer: the EID, two header bytes, the addresses in
      consecutive slots and, after the last filled slot, whatever `base` held. */
  function Fill(eid: Eid, hdr: seq<uint8>, slots: seq<Addr>, base: seq<uint8>): (r: seq<uint8>)
    requires |hdr| == 2 && |slots| <= 10 && |base| == MAX_PAYLOAD_LEN
    ensures |r| == MAX_PAYLOAD_LEN
  {
    eid + hdr + Concat(slots) + base[SLOTS_AT + 18 * |slots|..]
  }

  /** The bytes under a page's unfilled slots: the uninitialised stack buffer
      for the first page, zeros (from the `memset`) for every later one. */
  function Base(k: nat, scratch: seq<uint8>): seq<uint8>
  {
    if k == 0 then scratch else Zeros(MAX_PAYLOAD_LEN)
  }

  /** First address index of page `k`, and one past its last. */
  function PageStart(k: nat): nat
  {
    10 * k
  }

  function PageEnd(k: nat, n: nat): nat
  {
    if PageStart(k) + 10 <= n then PageStart(k) + 10 else n
  }

  /** Body of reply `k` for the address list `locs`: the last page carries
      `PACKET_FINISH`, every other one `PACKET_NOT_FINISH`, and the count
      byte says how many slots are filled. */
  function PageBody(eid: Eid, locs: seq<Addr>, k: nat, scratch: seq<uint8>): seq<uint8>
    requires PageStart(k) < |locs| && |scratch| == MAX_PAYLOAD_LEN
  {
    var lo, hi := PageStart(k), PageEnd(k, |locs|);
    var flag := if hi == |locs| then PACKET_FINISH else PACKET_NOT_FINISH;
    Fill(eid, [flag, hi - lo], locs[lo..hi], Base(k, scratch))
  }

  /** Reply `k` for the address list `locs`, its body as the loop leaves
      the buffer (`PageIsBody` shows it is `PageBody`). */
  function Reply(eid: Eid, locs: seq<Addr>, k: nat, scratch: seq<uint8>, from: Addr, port: nat): Packet
    requires PageStart(k) < |locs| && |scratch| == MAX_PAYLOAD_LEN
  {
    ReplyPacket(Page(eid, locs, k, scratch), from, port)
  }

  /** The first `m` replies for the list `locs`, in order. */
  function RepliesUpTo(eid: Eid, locs: seq<Addr>, m: nat, scratch: seq<uint8>, from: Addr, port: nat): (r: seq<Packet>)
    requires PageStart(m) < |locs| + 10 && |scratch| == MAX_PAYLOAD_LEN
    ensures |r| == m
  {
    if m == 0 then [] else RepliesUpTo(eid, locs, m - 1, scratch, from, port) + [Reply(eid, locs, m - 1, scratch, from, port)]
  }

  /** The replies sent once the first `n` addresses of `locs` are handled:
      one per page they fill. */
  function FullPages(eid: Eid, locs: seq<Addr>, n: nat, scratch: seq<uint8>, from: Addr, port: nat): seq<Packet>
    requires n <= |locs| && |scratch| == MAX_PAYLOAD_LEN
  {
    RepliesUpTo(eid, locs, n / 10, scratch, from, port)
  }

  /** Every reply a request for an EID with the list `locs` is answered with, in order. */
  function Replies(eid: Eid, locs: seq<Addr>, scratch: seq<uint8>, from: Addr, port: nat): (r: seq<Packet>)
    requires |scratch| == MAX_PAYLOAD_LEN
  {
    RepliesUpTo(eid, locs, NumPages(|locs|), scratch, from, port)
  }

  // ---------------------------------------------------------------------
  // The buffer and the replies, address by address, as the loop of
  // `RequestHandle` produces them

  /** Where address `i` is copied: slot `i % 10` of its page. */
  function SlotAt(i: nat): nat
  {
    SLOTS_AT + 18 * (i % 10)
  }

  /** The buffer with its flag and count bytes written. */
  function Stamp(b: seq<uint8>, flag: uint8, count: uint8): seq<uint8>
    requires |b| == MAX_PAYLOAD_LEN
  {
    b[EIDSIZE := flag][EIDSIZE + 1 := count]
  }

  /** The buffer once `n` addresses have been handled: after every tenth one
      it has been sent and cleared from the flag byte on. */
  function BufferAfter(se: Eid, list: seq<Addr>, scratch: seq<uint8>, n: nat): (r: seq<uint8>)
    requires n <= |list| && |scratch| == MAX_PAYLOAD_LEN
    ensures |r| == MAX_PAYLOAD_LEN
    decreases n, 1
  {
    if n == 0 then Overwrite(scratch, 0, se)
    else if n % 10 == 0 then se + Repeat(0, MAX_PAYLOAD_LEN - EIDSIZE)
    else Filled(se, list, scratch, n)
  }

  /** The buffer once address `n - 1` has been copied into its slot. */
  function Filled(se: Eid, list: seq<Addr>, scratch: seq<uint8>, n: nat): (r: seq<uint8>)
    requires 0 < n <= |list| && |scratch| == MAX_PAYLOAD_LEN
    ensures |r| == MAX_PAYLOAD_LEN
    decreases n, 0
  {
    Overwrite(BufferAfter(se, list, scratch, n - 1), SlotAt(n - 1), list[n - 1])
  }

  /** Page `k` as it is sent: the buffer once the page's last address is in,
      stamped with the page's flag and count. */
  function Page(se: Eid, list: seq<Addr>, k: nat, scratch: seq<uint8>): (r: seq<uint8>)
    requires PageStart(k) < |list| && |scratch| == MAX_PAYLOAD_LEN
    ensures |r| == MAX_PAYLOAD_LEN
  {
    var hi := PageEnd(k, |list|);
    Stamp(Filled(se, list, scratch, hi), FlagAt(list, hi), hi - PageStart(k))
  }

  /** The flag of the page that address `n - 1` completes. */
  function FlagAt(list: seq<Addr>, n: nat): uint8
  {
    if n < |list| then PACKET_NOT_FINISH else PACKET_FINISH
  }

  /** The buffer while page `k` is being filled, once the addresses before
      `n` are in: the EID, the header bytes and slots under it, and those
      of page `k`'s addresses copied so far. */
  function PageSoFar(se: Eid, list: seq<Addr>, k: nat, n: nat, scratch: seq<uint8>): seq<uint8>
    requires PageStart(k) <= n <= |list| && n <= PageStart(k) + 10 && |scratch| == MAX_PAYLOAD_LEN
  {
    Fill(se, Base(k, scratch)[EIDSIZE..SLOTS_AT], list[PageStart(k)..n], Base(k, scratch))
  }

  // ---------------------------------------------------------------------
  // Registrations

  /** The table after registering `a` for `se`: a new one-element list, or
      the old list with `a` appended, duplicates included. */
  function Register(t: map<Eid, seq<Addr>>, se: Eid, a: Addr): map<Eid, seq<Addr>>
  {
    t[se := (if se in t then t[se] else []) + [a]]
  }

  /** Registering `addrs` one after the other. */
  function RegisterAll(t: map<Eid, seq<Addr>>, se: Eid, addrs: seq<Addr>): map<Eid, seq<Addr>>
  {
    if addrs == [] then t else Register(RegisterAll(t, se, addrs[..|addrs| - 1]), se, addrs[|addrs| - 1])
  }

  class ResolutionApplication {
    var table: map<Eid, seq<Addr>>
    var sent: seq<Packet>
    const port: nat

    /** No list in the table is empty: lists are only ever created with one address. */
    ghost predicate Valid()
      reads this
    {
      forall e | e in table :: |table[e]| >= 1
    }

    constructor (port: nat)
      ensures Valid() && table == map[] && sent == [] && this.port == port
    {
      table, sent := map[], [];
      this.port := port;
    }

    /** `LookupEIDNATable`: the list, or NULL for an EID never registered. */
    function LookupEIDNATable(se: Eid): (r: Option<seq<Addr>>)
      reads this
      ensures r.None? <==> se !in table
      ensures r.Some? ==> r.value == table[se]
    {
      if se in table then Some(table[se]) else None
    }

    /** `AddEIDNATable`: append `to` to the EID's list, creating it on first registration. */
    method AddEIDNATable(se: Eid, to: Addr) returns (list: seq<Addr>)
      requires Valid()
      modifies this`table
      ensures Valid()
      ensures table == Register(old(table), se, to)
      ensures list == table[se]
    {
      var lh := LookupEIDNATable(se);
      if lh.None? {
        list := [to];
        assert list == [] + [to];
      } else {
        list := lh.value + [to];
      }
      table := table[se := list];
    }

    method SendPacket(body: seq<uint8>, to: Addr)
      modifies this`sent
      ensures sent == old(sent) + [ReplyPacket(body, to, port)]
    {
      sent := sent + [ReplyPacket(body, to, port)];
    }

    /** `res[EIDSIZE] = flag; res[EIDSIZE + 1] = count; SendPacket(res, ...)`. */
    method StampAndSend(res: array<uint8>, flag: uint8, count: uint8, from: Addr)
      requires res.Length == MAX_PAYLOAD_LEN
      modifies res, this`sent
      ensures res[..] == Stamp(old(res[..]), flag, count)
      ensures sent == old(sent) + [ReplyPacket(res[..], from, port)]
    {
      res[EIDSIZE] := flag;
      res[EIDSIZE + 1] := count;
      SendPacket(res[..], from);
    }

    /** One pass of the loop of `RequestHandle`: address `n` is copied into
        its slot; when that fills the page, the page is sent, flagged
        finished if `n` was the last address, and the buffer is cleared from
        the flag byte on. */
    method HandleAddress(res: array<uint8>, ghost se: Eid, list: seq<Addr>, ghost scratch: seq<uint8>, n: nat, from: Addr, ghost s0: seq<Packet>)
      requires n < |list| && |scratch| == MAX_PAYLOAD_LEN && res.Length == MAX_PAYLOAD_LEN
      requires res[..] == BufferAfter(se, list, scratch, n)
      requires sent == s0 + FullPages(se, list, n, scratch, from, port)
      modifies res, this`sent
      ensures res[..] == BufferAfter(se, list, scratch, n + 1)
      ensures sent == s0 + FullPages(se, list, n + 1, scratch, from, port)
    {
      Memcpy(res, SlotAt(n), list[n]);
      if (n + 1) % 10 == 0 {
        SendFullPage(res, se, list, scratch, n, from, s0);
      } else {
        PageContinues(se, list, scratch, n, from, port);
      }
    }

    /** The page that address `n` fills is sent, flagged finished if `n`
        was the last address (the source's two branches differ only in the
        flag), and the buffer is cleared from the flag byte on. */
    method SendFullPage(res: array<uint8>, ghost se: Eid, list: seq<Addr>, ghost scratch: seq<uint8>, n: nat, from: Addr, ghost s0: seq<Packet>)
      requires n < |list| && (n + 1) % 10 == 0 && |scratch| == MAX_PAYLOAD_LEN && res.Length == MAX_PAYLOAD_LEN
      requires res[..] == Filled(se, list, scratch, n + 1)
      requires sent == s0 + FullPages(se, list, n, scratch, from, port)
      modifies res, this`sent
      ensures res[..] == BufferAfter(se, list, scratch, n + 1)
      ensures sent == s0 + FullPages(se, list, n + 1, scratch, from, port)
    {
      FullPageStep(s0, se, list, scratch, n, from, port);
      StampAndSend(res, FlagAt(list, n + 1), 10, from);
      MemsetTail(res, EIDSIZE, 0);
    }

    /** `ResolutionProtocolHandle`: only requests and registrations have an effect. */
    method ResolutionProtocolHandle(buffer: seq<uint8>, protocolType: uint8, from: Addr, scratch: seq<uint8>)
      requires Valid()
      requires |buffer| >= EIDSIZE && |scratch| == MAX_PAYLOAD_LEN
      modifies this`table, this`sent
      ensures Valid()
      ensures protocolType == REQUEST_EID_NA ==>
        table == old(table) && sent == old(sent) + RequestReplies(FromBuffer(buffer), scratch, from)
      ensures protocolType == REGIST_EID_NA ==>
        table == Register(old(table), FromBuffer(buffer), from) && sent == old(sent)
      ensures protocolType != REQUEST_EID_NA && protocolType != REGIST_EID_NA ==>
        table == old(table) && sent == old(sent)
    {
      if protocolType == REQUEST_EID_NA {
        RequestHandle(buffer, from, scratch);
      } else if protocolType == REGIST_EID_NA {
        RegistHandle(buffer, from);
      }
    }

    /** What a request for `se` is answered with: nothing for an unknown EID. */
    function RequestReplies(se: Eid, scratch: seq<uint8>, from: Addr): seq<Packet>
      reads this
      requires |scratch| == MAX_PAYLOAD_LEN
    {
      if se in table then Replies(se, table[se], scratch, from, port) else []
    }

    /** `RegistHandle`: the EID is the first twenty payload bytes; the sender's address is stored. */
    method RegistHandle(buffer: seq<uint8>, from: Addr)
      requires Valid() && |buffer| >= EIDSIZE
      modifies this`table
      ensures Valid()
      ensures table == Register(old(table), FromBuffer(buffer), from)
    {
      var se := FromBuffer(buffer);
      var _ := AddEIDNATable(se, from);
    }

    /** `RequestHandle`: the list is walked once; each address is copied into
        the next slot of the 255-byte buffer `res`, and every tenth address
        sends the buffer (flagged finished when it was the last) and clears
        it from the flag byte on; a part-filled last page is sent after the
        loop. `scratch` is what the uninitialised `res` held. */
    method RequestHandle(buffer: seq<uint8>, from: Addr, scratch: seq<uint8>)
      requires |buffer| >= EIDSIZE && |scratch| == MAX_PAYLOAD_LEN
      modifies this`sent
      ensures sent == old(sent) + RequestReplies(FromBuffer(buffer), scratch, from)
    {
      var se := FromBuffer(buffer);
      var value := LookupEIDNATable(se);
      if value.Some? {
        SendList(se, value.value, from, scratch);
      }
    }

    /** The body of `RequestHandle` once the list is found. */
    method SendList(se: Eid, list: seq<Addr>, from: Addr, scratch: seq<uint8>)
      requires |scratch| == MAX_PAYLOAD_LEN
      modifies this`sent
      ensures sent == old(sent) + Replies(se, list, scratch, from, port)
    {
      var res := NewBuffer(scratch);
      Memcpy(res, 0, se);
      ghost var s0 := sent;
      var ipnum: nat := 0;
      while ipnum < |list|
        invariant ipnum <= |list|
        invariant res[..] == BufferAfter(se, list, scratch, ipnum)
        invariant sent == s0 + FullPages(se, list, ipnum, scratch, from, port)
      {
        HandleAddress(res, se, list, scratch, ipnum, from, s0);
        ipnum := ipnum + 1;
      }
      SendLastPage(res, se, list, scratch, from, s0);
    }

    /** After the loop: a part-filled last page is sent flagged finished
        with its count; a list that filled its last page has nothing left. */
    method SendLastPage(res: array<uint8>, ghost se: Eid, list: seq<Addr>, ghost scratch: seq<uint8>, from: Addr, ghost s0: seq<Packet>)
      requires |scratch| == MAX_PAYLOAD_LEN && res.Length == MAX_PAYLOAD_LEN
      requires res[..] == BufferAfter(se, list, scratch, |list|)
      requires sent == s0 + FullPages(se, list, |list|, scratch, from, port)
      modifies res, this`sent
      ensures sent == s0 + Replies(se, list, scratch, from, port)
    {
      LastPageIsReply(s0, se, list, scratch, from, port);
      if |list| % 10 != 0 {
        StampAndSend(res, PACKET_FINISH, |list| % 10, from);
      }
    }
  }

  // ---------------------------------------------------------------------
  // The loop sends exactly the pages

  /** Copying one more address into the next free slot. */
  lemma FillPush(eid: Eid, hdr: seq<uint8>, slots: seq<Addr>, a: Addr, base: seq<uint8>)
    requires |hdr| == 2 && |slots| < 10 && |base| == MAX_PAYLOAD_LEN
    ensures Fill(eid, hdr, slots + [a], base) == Overwrite(Fill(eid, hdr, slots, base), SLOTS_AT + 18 * |slots|, a)
  {
    assert (slots + [a])[..|slots|] == slots;
    assert Concat(slots + [a]) == Concat(slots) + a;
  }

  /** Writing the flag and count bytes replaces the two header bytes. */
  lemma FillHeader(eid: Eid, hdr: seq<uint8>, slots: seq<Addr>, base: seq<uint8>, flag: uint8, count: uint8)
    requires |hdr| == 2 && |slots| <= 10 && |base| == MAX_PAYLOAD_LEN
    ensures Stamp(Fill(eid, hdr, slots, base), flag, count) == Fill(eid, [flag, count], slots, base)
  {
  }

  /** Address `m` goes into the next free slot of its page. */
  lemma PushIsPage(se: Eid, list: seq<Addr>, scratch: seq<uint8>, m: nat)
    requires m < |list| && |scratch| == MAX_PAYLOAD_LEN
    ensures Overwrite(PageSoFar(se, list, m / 10, m, scratch), SlotAt(m), list[m])
            == PageSoFar(se, list, m / 10, m + 1, scratch)
  {
    var k := m / 10;
    var base := Base(k, scratch);
    var slots := list[PageStart(k)..m];
    InPage(m);
    FillPush(se, base[EIDSIZE..SLOTS_AT], slots, list[m], base);
    assert list[PageStart(k)..m + 1] == slots + [list[m]];
  }

  /** Page `k`, once its last address `n - 1` is in, stamped with its flag
      and count, is reply `k`. */
  lemma StampIsPage(se: Eid, list: seq<Addr>, scratch: seq<uint8>, k: nat, n: nat)
    requires |scratch| == MAX_PAYLOAD_LEN
    requires PageStart(k) < n <= |list| && (n == |list| || n == PageStart(k) + 10) && n <= PageStart(k) + 10
    ensures Stamp(PageSoFar(se, list, k, n, scratch), FlagAt(list, n), n - PageStart(k)) == PageBody(se, list, k, scratch)
  {
    assert PageEnd(k, |list|) == n;
    var base := Base(k, scratch);
    FillHeader(se, base[EIDSIZE..SLOTS_AT], list[PageStart(k)..n], base, FlagAt(list, n), n - PageStart(k));
  }

  /** The EID copied to the front of the buffer stays there: every slot
      lies after it and the `memset` starts after it. */
  lemma {:induction false} BufferKeepsEid(se: Eid, list: seq<Addr>, scratch: seq<uint8>, n: nat)
    requires n <= |list| && |scratch| == MAX_PAYLOAD_LEN
    ensures BufferAfter(se, list, scratch, n)[..EIDSIZE] == se
  {
    if n > 0 && n % 10 != 0 {
      BufferKeepsEid(se, list, scratch, n - 1);
    }
  }

  /** After `n` addresses the buffer holds the open page with the addresses
      copied into it so far. */
  lemma {:induction false} BufferIsPage(se: Eid, list: seq<Addr>, scratch: seq<uint8>, n: nat)
    requires n <= |list| && |scratch| == MAX_PAYLOAD_LEN
    ensures BufferAfter(se, list, scratch, n) == PageSoFar(se, list, n / 10, n, scratch)
  {
    if n == 0 {
      assert BufferAfter(se, list, scratch, 0) == PageSoFar(se, list, 0, 0, scratch);
    } else if n % 10 == 0 {
      var z := Zeros(MAX_PAYLOAD_LEN);
      assert Base(n / 10, scratch) == z;
      assert list[PageStart(n / 10)..n] == [];
      assert Repeat(0, MAX_PAYLOAD_LEN - EIDSIZE) == z[EIDSIZE..SLOTS_AT] + Concat([]) + z[SLOTS_AT..];
    } else {
      BufferIsPage(se, list, scratch, n - 1);
      InPage(n - 1);
      PushIsPage(se, list, scratch, n - 1);
    }
  }

  /** The page the loop sends is the page the specification describes. */
  lemma PageIsBody(se: Eid, list: seq<Addr>, k: nat, scratch: seq<uint8>)
    requires PageStart(k) < |list| && |scratch| == MAX_PAYLOAD_LEN
    ensures Page(se, list, k, scratch) == PageBody(se, list, k, scratch)
  {
    var hi := PageEnd(k, |list|);
    LastInPage(k, |list|);
    BufferIsPage(se, list, scratch, hi - 1);
    PushIsPage(se, list, scratch, hi - 1);
    StampIsPage(se, list, scratch, k, hi);
  }

  /** Sending the page that address `n` fills extends the replies by that
      page, and clearing it from the flag byte on leaves the buffer empty. */
  lemma FullPageStep(s0: seq<Packet>, se: Eid, list: seq<Addr>, scratch: seq<uint8>, n: nat, from: Addr, port: nat)
    requires n < |list| && (n + 1) % 10 == 0 && |scratch| == MAX_PAYLOAD_LEN
    ensures Stamp(Filled(se, list, scratch, n + 1), FlagAt(list, n + 1), 10)[..EIDSIZE] == se
    ensures BufferAfter(se, list, scratch, n + 1) == se + Repeat(0, MAX_PAYLOAD_LEN - EIDSIZE)
    ensures s0 + FullPages(se, list, n + 1, scratch, from, port)
            == (s0 + FullPages(se, list, n, scratch, from, port))
               + [ReplyPacket(Stamp(Filled(se, list, scratch, n + 1), FlagAt(list, n + 1), 10), from, port)]
  {
    PageCloses(n);
    BufferKeepsEid(se, list, scratch, n);
    AppendReply(s0, se, list, n / 10, scratch, from, port);
  }

  /** The address that fills a page ends page `n / 10`, and the next page starts after it. */
  lemma PageCloses(n: nat)
    requires (n + 1) % 10 == 0
    ensures PageStart(n / 10) + 10 == n + 1 && (n + 1) / 10 == n / 10 + 1
  {
  }

  /** Address `m` lies in page `m / 10`, at slot `m % 10`. */
  lemma InPage(m: nat)
    ensures PageStart(m / 10) + m % 10 == m && m % 10 < 10
    ensures (m + 1) % 10 != 0 ==> (m + 1) / 10 == m / 10
  {
  }

  /** The last address of page `k` lies in page `k`. */
  lemma LastInPage(k: nat, n: nat)
    requires PageStart(k) < n
    ensures (PageEnd(k, n) - 1) / 10 == k
  {
  }

  /** An address that does not fill its page sends nothing. */
  lemma PageContinues(se: Eid, list: seq<Addr>, scratch: seq<uint8>, n: nat, from: Addr, port: nat)
    requires n < |list| && (n + 1) % 10 != 0 && |scratch| == MAX_PAYLOAD_LEN
    ensures FullPages(se, list, n + 1, scratch, from, port) == FullPages(se, list, n, scratch, from, port)
  {
    InPage(n);
  }

  /** Sending reply `k` after the first `k` extends the trace by one reply. */
  lemma AppendReply(s0: seq<Packet>, eid: Eid, list: seq<Addr>, k: nat, scratch: seq<uint8>, from: Addr, port: nat)
    requires |scratch| == MAX_PAYLOAD_LEN && PageStart(k) < |list|
    ensures s0 + RepliesUpTo(eid, list, k + 1, scratch, from, port)
            == (s0 + RepliesUpTo(eid, list, k, scratch, from, port)) + [Reply(eid, list, k, scratch, from, port)]
  {
  }

  /** After the loop every full page has been sent; a part-filled last page,
      stamped `PACKET_FINISH` with its count, is the one reply left. */
  lemma LastPageIsReply(s0: seq<Packet>, se: Eid, list: seq<Addr>, scratch: seq<uint8>, from: Addr, port: nat)
    requires |scratch| == MAX_PAYLOAD_LEN
    ensures var n := |list|;
            s0 + Replies(se, list, scratch, from, port)
            == (s0 + FullPages(se, list, n, scratch, from, port))
               + (if n % 10 != 0 then [ReplyPacket(Stamp(BufferAfter(se, list, scratch, n), PACKET_FINISH, n % 10), from, port)] else [])
  {
    var n := |list|;
    var k := n / 10;
    if n % 10 != 0 {
      assert NumPages(n) == k + 1 && PageEnd(k, n) == n && n - PageStart(k) == n % 10;
    } else {
      assert NumPages(n) == k;
    }
  }

  // ---------------------------------------------------------------------
  // What the replies hold

  /** Slot `j` of a run of addresses holds the `j`-th address. */
  lemma {:induction false} ConcatSlot(addrs: seq<Addr>, j: nat)
    requires j < |addrs|
    ensures Concat(addrs)[18 * j..18 * j + 18] == addrs[j]
  {
    var m := |addrs| - 1;
    var init := addrs[..m];
    assert Concat(addrs) == Concat(init) + addrs[m];
    if j < m {
      ConcatSlot(init, j);
      assert Concat(addrs)[18 * j..18 * j + 18] == Concat(init)[18 * j..18 * j + 18];
    } else {
      assert Concat(addrs)[18 * j..] == addrs[m];
    }
  }

  /** The layout of a reply body: the EID, the two header bytes, the
      addresses slot by slot, and `base` after the last filled slot. */
  lemma FillLayout(eid: Eid, hdr: seq<uint8>, slots: seq<Addr>, base: seq<uint8>)
    requires |hdr| == 2 && |slots| <= 10 && |base| == MAX_PAYLOAD_LEN
    ensures var r := Fill(eid, hdr, slots, base);
      && r[..EIDSIZE] == eid
      && r[EIDSIZE] == hdr[0] && r[EIDSIZE + 1] == hdr[1]
      && (forall j | 0 <= j < |slots| :: r[SLOTS_AT + 18 * j..SLOTS_AT + 18 * j + 18] == slots[j])
      && r[SLOTS_AT + 18 * |slots|..] == base[SLOTS_AT + 18 * |slots|..]
  {
    var r := Fill(eid, hdr, slots, base);
    var c := Concat(slots);
    assert r == (eid + hdr) + c + base[SLOTS_AT + 18 * |slots|..];
    forall j | 0 <= j < |slots|
      ensures r[SLOTS_AT + 18 * j..SLOTS_AT + 18 * j + 18] == slots[j]
    {
      ConcatSlot(slots, j);
      assert r[SLOTS_AT + 18 * j..SLOTS_AT + 18 * j + 18] == c[18 * j..18 * j + 18];
    }
  }

  /** Reply `k` of the list starts with the EID, then `PACKET_FINISH` on
      the last page and `PACKET_NOT_FINISH` on every other, then the
      number of addresses on the page; after the last filled slot it
      carries what the uninitialised buffer held on the first page and
      zeros on later ones. */
  lemma PageHeader(se: Eid, list: seq<Addr>, k: nat, scratch: seq<uint8>)
    requires PageStart(k) < |list| && |scratch| == MAX_PAYLOAD_LEN
    ensures var r, lo, hi := PageBody(se, list, k, scratch), PageStart(k), PageEnd(k, |list|);
      && r[..EIDSIZE] == se
      && r[EIDSIZE] == (if hi == |list| then PACKET_FINISH else PACKET_NOT_FINISH)
      && r[EIDSIZE + 1] == hi - lo
      && r[SLOTS_AT + 18 * (hi - lo)..] == Base(k, scratch)[SLOTS_AT + 18 * (hi - lo)..]
  {
    var lo, hi := PageStart(k), PageEnd(k, |list|);
    var flag := if hi == |list| then PACKET_FINISH else PACKET_NOT_FINISH;
    FillLayout(se, [flag, hi - lo], list[lo..hi], Base(k, scratch));
  }

  /** Reply `k` of the list holds addresses `10k`, `10k + 1`, ... in slots
      0, 1, ... */
  lemma PageSlots(se: Eid, list: seq<Addr>, k: nat, scratch: seq<uint8>)
    requires PageStart(k) < |list| && |scratch| == MAX_PAYLOAD_LEN
    ensures var r := PageBody(se, list, k, scratch);
      forall i | PageStart(k) <= i < PageEnd(k, |list|) :: r[SlotAt(i)..SlotAt(i) + 18] == list[i]
  {
    var lo, hi := PageStart(k), PageEnd(k, |list|);
    var flag := if hi == |list| then PACKET_FINISH else PACKET_NOT_FINISH;
    var slots := list[lo..hi];
    FillLayout(se, [flag, hi - lo], slots, Base(k, scratch));
    forall i | lo <= i < hi
      ensures SlotAt(i) == SLOTS_AT + 18 * (i - lo) && slots[i - lo] == list[i]
    {
      SlotInPage(k, i);
    }
  }

  /** Address `i` of page `k` goes into slot `i - 10k`. */
  lemma SlotInPage(k: nat, i: nat)
    requires PageStart(k) <= i < PageStart(k) + 10
    ensures i % 10 == i - PageStart(k)
  {
  }

  /** The `k`-th of the first `m` replies is reply `k`. */
  lemma {:induction false} RepliesUpToAt(eid: Eid, locs: seq<Addr>, m: nat, k: nat, scratch: seq<uint8>, from: Addr, port: nat)
    requires PageStart(m) < |locs| + 10 && |scratch| == MAX_PAYLOAD_LEN && k < m
    ensures RepliesUpTo(eid, locs, m, scratch, from, port)[k] == Reply(eid, locs, k, scratch, from, port)
  {
    if k < m - 1 {
      RepliesUpToAt(eid, locs, m - 1, k, scratch, from, port);
    }
  }

  /** A request is answered with ceil(N / 10) replies, all `REPLY_EID_NA`
      back to the requester on the server's port, reply `k` holding page
      `k` of the list. */
  lemma RepliesArePages(se: Eid, list: seq<Addr>, scratch: seq<uint8>, from: Addr, port: nat)
    requires |scratch| == MAX_PAYLOAD_LEN
    ensures var rs := Replies(se, list, scratch, from, port);
      && |rs| == NumPages(|list|)
      && forall k | 0 <= k < |rs| ::
           PageStart(k) < |list| && rs[k] == ReplyPacket(PageBody(se, list, k, scratch), from, port)
  {
    var rs := Replies(se, list, scratch, from, port);
    forall k | 0 <= k < |rs|
      ensures PageStart(k) < |list| && rs[k] == ReplyPacket(PageBody(se, list, k, scratch), from, port)
    {
      RepliesUpToAt(se, list, NumPages(|list|), k, scratch, from, port);
      PageIsBody(se, list, k, scratch);
    }
  }

  /** Every registered address is sent exactly where a client looks for
      it: in slot `i % 10` of reply `i / 10`. */
  lemma AddressIsSent(se: Eid, list: seq<Addr>, scratch: seq<uint8>, from: Addr, port: nat, i: nat)
    requires i < |list| && |scratch| == MAX_PAYLOAD_LEN
    ensures var rs := Replies(se, list, scratch, from, port);
      i / 10 < |rs| && |rs[i / 10].body| == MAX_PAYLOAD_LEN && rs[i / 10].body[SlotAt(i)..SlotAt(i) + 18] == list[i]
  {
    var k := i / 10;
    InPage(i);
    RepliesArePages(se, list, scratch, from, port);
    PageSlots(se, list, k, scratch);
  }

  /** Registrations for one EID append to its list in arrival order,
      duplicates kept, and leave every other EID's list alone. */
  lemma {:induction false} RegisterAllAppends(t: map<Eid, seq<Addr>>, se: Eid, addrs: seq<Addr>)
    requires addrs != []
    ensures var t' := RegisterAll(t, se, addrs);
      && se in t'
      && t'[se] == (if se in t then t[se] else []) + addrs
      && t'.Keys == t.Keys + {se}
      && forall e | e in t && e != se :: t'[e] == t[e]
  {
    var m := |addrs| - 1;
    if m == 0 {
      assert addrs == [addrs[0]];
    } else {
      RegisterAllAppends(t, se, addrs[..m]);
      assert addrs[..m] + [addrs[m]] == addrs;
    }
  }

  /** Page `k` of a list of `n` addresses is the last exactly when it
      reaches the end of the list, and holds ten addresses unless it is a
      last page short of ten. */
  lemma PageBounds(k: nat, n: nat)
    requires k < NumPages(n)
    ensures PageStart(k) < n
    ensures PageEnd(k, n) == n <==> k == NumPages(n) - 1
    ensures PageEnd(k, n) - PageStart(k) == (if k < NumPages(n) - 1 || n % 10 == 0 then 10 else n % 10)
  {
  }

  /** Every reply starts with the requested EID; only the last is flagged
      `PACKET_FINISH`, and it counts N mod 10 addresses (ten when N is a
      multiple of ten) while every other reply counts ten. */
  lemma ReplyHeader(se: Eid, list: seq<Addr>, scratch: seq<uint8>, from: Addr, port: nat, k: nat)
    requires |scratch| == MAX_PAYLOAD_LEN && k < NumPages(|list|)
    ensures var rs, last := Replies(se, list, scratch, from, port), NumPages(|list|) - 1;
      && k < |rs| && |rs[k].body| == MAX_PAYLOAD_LEN
      && rs[k].body[..EIDSIZE] == se
      && rs[k].body[EIDSIZE] == (if k == last then PACKET_FINISH else PACKET_NOT_FINISH)
      && rs[k].body[EIDSIZE + 1] == (if k < last || |list| % 10 == 0 then 10 else |list| % 10)
  {
    PageBounds(k, |list|);
    RepliesArePages(se, list, scratch, from, port);
    PageHeader(se, list, k, scratch);
  }
}
