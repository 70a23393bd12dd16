/** The v4 overlay switch (`SwitchApplicationv4`): the unicast, multicast and
    resolution tables it shares with every other switch, its own neighbour
    delay table and EID presence cache, and the handlers that update them. */
module SwitchV4 {
  import opened Bytes
  import opened Wrappers
  import opened Protocol
  import opened SeanetEid

  /** The `TreeType` attribute: "Seanet", "SPT", or anything else. */
  datatype TreeType = Seanet | SPT | OtherTree

  /** No element occurs twice. */
  predicate Distinct<T(==)>(s: seq<T>)
  {
    forall i, j | 0 <= i < j < |s| :: s[i] != s[j]
  }

  // ---------------------------------------------------------------------
  // The unicast and multicast tables: locator to EID list, NULL allowed

  /** A cast table: `StartApplication` enters each local address with a
      NULL list (`None`); `AddCastTable` fills it in. */
  type CastMap = map<Locator, Option<seq<Eid>>>

  /** No list holds the same EID twice. */
  predicate CastDistinct(t: CastMap)
  {
    forall l | l in t && t[l].Some? :: Distinct(t[l].value)
  }

  /** `AddCastTable`: an absent key or a NULL list becomes the one-element
      list `[e]`; otherwise `e` is appended unless an equal EID is there. */
  function CastAdd(t: CastMap, l: Locator, e: Eid): (r: CastMap)
    ensures r.Keys == t.Keys + {l} && r[l].Some? && e in r[l].value
    ensures forall k | k in t && k != l :: r[k] == t[k]
    ensures l in t && t[l].Some? ==> r[l].value == t[l].value + (if e in t[l].value then [] else [e])
    ensures CastDistinct(t) ==> CastDistinct(r)
  {
    if l !in t || t[l].None? then t[l := Some([e])]
    else if e in t[l].value then t
    else t[l := Some(t[l].value + [e])]
  }

  /** A unicast or multicast table, shared by reference among the switches. */
  class CastTable {
    var entries: CastMap

    constructor (entries: CastMap)
      ensures this.entries == entries
    {
      this.entries := entries;
    }
  }

  // ---------------------------------------------------------------------
  // The resolution cache: EID to the locators known to hold it

  /** A resolution cache: every list is non-empty, holds locators with
      interface 0 only, and none twice. */
  predicate ResolutionOk(t: map<Eid, seq<Locator>>)
  {
    forall e | e in t :: |t[e]| >= 1 && Distinct(t[e]) && forall l | l in t[e] :: l.iface == 0
  }

  /** `AddEIDNAINFO`: the locator, moved to interface 0, becomes a new
      one-element list or is appended unless already present. */
  function InfoAdd(t: map<Eid, seq<Locator>>, se: Eid, l: Locator): (r: map<Eid, seq<Locator>>)
    ensures r.Keys == t.Keys + {se} && l.Iface0() in r[se]
    ensures forall e | e in t && e != se :: r[e] == t[e]
    ensures se in t ==> r[se] == t[se] + (if l.Iface0() in t[se] then [] else [l.Iface0()])
    ensures ResolutionOk(t) ==> ResolutionOk(r)
  {
    var l0 := l.Iface0();
    if se !in t then t[se := [l0]]
    else if l0 in t[se] then t
    else t[se := t[se] + [l0]]
  }

  /** The resolution cache, shared by reference among the switches. */
  class ResolutionTable {
    var entries: map<Eid, seq<Locator>>

    constructor (entries: map<Eid, seq<Locator>>)
      ensures this.entries == entries
    {
      this.entries := entries;
    }
  }

  // ---------------------------------------------------------------------
  // Load score and the nearest holder, as functions of the tables

  /** `GetSwitchSocre`: the lengths of both lists at `ad` added up, or 0
      unless both tables have a non-NULL list there. */
  function Score(u: CastMap, m: CastMap, ad: Locator): (r: nat)
    ensures r > 0 ==> ad in u && ad in m && u[ad].Some? && m[ad].Some?
    ensures ad in u && ad in m && u[ad].Some? && m[ad].Some? ==> r == |u[ad].value| + |m[ad].value|
  {
    if ad in m && ad in u && m[ad].Some? && u[ad].Some? then |u[ad].value| + |m[ad].value| else 0
  }

  /** The sentinel delay both nearest-node searches start from: `Time(1000000000)`. */
  const FAR: nat := 1000000000

  /** Whether `l` has a delay sample below the sentinel. */
  predicate Near(delay: map<Locator, nat>, l: Locator)
  {
    l in delay && delay[l] < FAR
  }

  /** The search of `FindNearestNode` and `ResolutionProtocolHandle` after
      the first `n` locators: the candidate (initially the first locator)
      and its delay (initially the sentinel); a locator replaces the
      candidate only with a strictly smaller known delay. */
  function NearestUpTo(locs: seq<Locator>, delay: map<Locator, nat>, n: nat): (r: (Locator, nat))
    requires 1 <= |locs| && n <= |locs|
  {
    if n == 0 then (locs[0], FAR)
    else
      var prev := NearestUpTo(locs, delay, n - 1);
      var x := locs[n - 1];
      if x in delay && delay[x] < prev.1 then (x, delay[x]) else prev
  }

  /** The locator both searches settle on. */
  function Nearest(locs: seq<Locator>, delay: map<Locator, nat>): Locator
    requires 1 <= |locs|
  {
    NearestUpTo(locs, delay, |locs|).0
  }

  /** The search after `n` locators holds the earliest of them with the
      smallest known delay below the sentinel, or the first locator with the
      sentinel when none of them has one. */
  lemma {:induction false} NearestUpToIsMin(locs: seq<Locator>, delay: map<Locator, nat>, n: nat)
    requires 1 <= |locs| && n <= |locs|
    ensures var p := NearestUpTo(locs, delay, n);
      && p.1 <= FAR
      && (forall i | 0 <= i < n && locs[i] in delay :: p.1 <= delay[locs[i]])
      && (p.1 == FAR ==> p.0 == locs[0] && forall i | 0 <= i < n :: !Near(delay, locs[i]))
      && (p.1 < FAR ==> exists k | 0 <= k < n ::
            && p.0 == locs[k] && locs[k] in delay && delay[locs[k]] == p.1
            && forall i | 0 <= i < k && locs[i] in delay :: p.1 < delay[locs[i]])
  {
    if n > 0 {
      NearestUpToIsMin(locs, delay, n - 1);
      var prev := NearestUpTo(locs, delay, n - 1);
      var x := locs[n - 1];
      if x in delay && delay[x] < prev.1 {
        assert NearestUpTo(locs, delay, n).0 == locs[n - 1];
      } else if prev.1 < FAR {
        var k :| 0 <= k < n - 1 && prev.0 == locs[k] && locs[k] in delay && delay[locs[k]] == prev.1
                 && forall i | 0 <= i < k && locs[i] in delay :: prev.1 < delay[locs[i]];
        assert NearestUpTo(locs, delay, n).0 == locs[k];
      }
    }
  }

  /** Both searches answer the first locator unless another has a strictly
      smaller delay sample, in which case the earliest-listed locator with
      the smallest sample wins. */
  lemma NearestIsEarliestMinimum(locs: seq<Locator>, delay: map<Locator, nat>)
    requires 1 <= |locs|
    ensures var r := Nearest(locs, delay);
      && ((forall i | 0 <= i < |locs| :: !Near(delay, locs[i])) ==> r == locs[0])
      && ((exists i | 0 <= i < |locs| :: Near(delay, locs[i])) ==> exists k | 0 <= k < |locs| ::
            && r == locs[k] && Near(delay, r)
            && (forall i | 0 <= i < |locs| && locs[i] in delay :: delay[r] <= delay[locs[i]])
            && (forall i | 0 <= i < k && locs[i] in delay :: delay[r] < delay[locs[i]]))
  {
    NearestUpToIsMin(locs, delay, |locs|);
  }

  // ---------------------------------------------------------------------
  // Root selection

  /** The score `GetRootNode` starts from. */
  const START_SCORE: nat := 10000

  /** The search of `GetRootNode` after the first `n` keys: the candidate
      (initially the first key) and its score (initially 10000); a key with
      a score at most the candidate's replaces it, so ties go to the later
      key. */
  function RootUpTo(order: seq<Locator>, u: CastMap, m: CastMap, n: nat): (r: (Locator, nat))
    requires 1 <= |order| && n <= |order|
    ensures r.0 in order
  {
    if n == 0 then (order[0], START_SCORE)
    else
      var prev := RootUpTo(order, u, m, n - 1);
      var x := order[n - 1];
      if Score(u, m, x) <= prev.1 then (x, Score(u, m, x)) else prev
  }

  /** The root `GetRootNode` picks from the keys in iteration order `order`. */
  function Root(order: seq<Locator>, u: CastMap, m: CastMap): (r: Locator)
    requires 1 <= |order|
    ensures r in order
  {
    RootUpTo(order, u, m, |order|).0
  }

  /** The search after `n` keys holds the last of them with the smallest
      score, or the first key with 10000 when every score exceeds 10000. */
  lemma {:induction false} RootUpToIsMin(order: seq<Locator>, u: CastMap, m: CastMap, n: nat)
    requires 1 <= |order| && n <= |order|
    ensures var p := RootUpTo(order, u, m, n);
      && p.1 <= START_SCORE
      && (forall i | 0 <= i < n :: p.1 <= Score(u, m, order[i]))
      && ((forall i | 0 <= i < n :: Score(u, m, order[i]) > START_SCORE) ==> p == (order[0], START_SCORE))
      && ((exists i | 0 <= i < n :: Score(u, m, order[i]) <= START_SCORE) ==> exists k | 0 <= k < n ::
            && p.0 == order[k] && Score(u, m, order[k]) == p.1
            && forall i | k < i < n :: p.1 < Score(u, m, order[i]))
  {
    if n > 0 {
      RootUpToIsMin(order, u, m, n - 1);
      var prev := RootUpTo(order, u, m, n - 1);
      var x := order[n - 1];
      if Score(u, m, x) <= prev.1 {
        assert RootUpTo(order, u, m, n).0 == order[n - 1];
      } else if exists i | 0 <= i < n - 1 :: Score(u, m, order[i]) <= START_SCORE {
        var k :| 0 <= k < n - 1 && prev.0 == order[k] && Score(u, m, order[k]) == prev.1
                 && forall i | k < i < n - 1 :: prev.1 < Score(u, m, order[i]);
        assert RootUpTo(order, u, m, n).0 == order[k];
      } else {
        assert prev == (order[0], START_SCORE);
      }
    }
  }

  /** `GetRootNode` picks a key of smallest score, the last one in iteration
      order when several tie; when every score exceeds 10000 it keeps the
      first key. */
  lemma RootIsLastMinimum(order: seq<Locator>, u: CastMap, m: CastMap)
    requires 1 <= |order|
    ensures var r := Root(order, u, m);
      && ((forall i | 0 <= i < |order| :: Score(u, m, order[i]) > START_SCORE) ==> r == order[0])
      && ((exists i | 0 <= i < |order| :: Score(u, m, order[i]) <= START_SCORE) ==> exists k | 0 <= k < |order| ::
            && r == order[k]
            && (forall i | 0 <= i < |order| :: Score(u, m, r) <= Score(u, m, order[i]))
            && (forall i | k < i < |order| :: Score(u, m, r) < Score(u, m, order[i])))
  {
    RootUpToIsMin(order, u, m, |order|);
  }

  /** What `GetRootNode` answers: its own address when no delay sample
      exists, otherwise `Root` over the delay table's keys. */
  function RootNode(local: Locator, order: seq<Locator>, u: CastMap, m: CastMap): Locator
  {
    if |order| == 0 then local else Root(order, u, m)
  }

  /** What `FindNearestNode` answers for `se`: a default address when the
      cache has no entry, the most recently added locator for an SPT tree,
      otherwise `Nearest` over the cached list. */
  function NearestNode(res: map<Eid, seq<Locator>>, tree: TreeType, delay: map<Locator, nat>, se: Eid): Locator
    requires ResolutionOk(res)
  {
    if se !in res then UNSET_LOCATOR
    else if tree == SPT then res[se][|res[se]| - 1]
    else Nearest(res[se], delay)
  }

  /** `AddCastTable` at the switch's own locator and again at the same
      locator moved to interface 0, as every multicast handler does. */
  function CastAddBoth(t: CastMap, l: Locator, e: Eid): (r: CastMap)
    ensures r.Keys == t.Keys + {l, l.Iface0()}
    ensures r[l].Some? && e in r[l].value && r[l.Iface0()].Some? && e in r[l.Iface0()].value
    ensures forall k | k in t && k != l && k != l.Iface0() :: r[k] == t[k]
    ensures CastDistinct(t) ==> CastDistinct(r)
  {
    CastAdd(CastAdd(t, l, e), l.Iface0(), e)
  }

  // ---------------------------------------------------------------------
  // What the switch sends

  /** A packet `SendPacket` emits with the three-byte header (destination
      flag set, as the applications' two-argument header constructor does),
      to `to` on the switch's port. */
  function Emit(app: uint8, proto: uint8, to: Locator, port: nat, body: seq<uint8>): Packet
  {
    Packet(app, proto, IS_DST, Node(to), port, body)
  }

  /** `NeighInfoDetec(dst, port)`: a delay probe. */
  function Probe(dst: Locator, port: nat): Packet
  {
    Emit(NEIGH_INFO_APPLICATION, NEIGH_INFO_RECEIVE, dst, port, ProbeBody())
  }

  /** `NeighInfoReply(dst, port)`: the answer to a probe. */
  function ProbeReply(dst: Locator, port: nat): Packet
  {
    Emit(NEIGH_INFO_APPLICATION, NEIGH_INFO_REPLY, dst, port, ProbeBody())
  }

  // ---------------------------------------------------------------------
  // Resolver replies and neighbour probing

  /** Where the `ipnum` locators of a resolver reply page sit: 18 bytes
      each from byte 22 (after the EID, the finished flag and the count). */
  function LocatorAt(i: nat): nat
  {
    EIDSIZE + 2 + 18 * i
  }

  /** The locators of a reply page, each decoded by `decode`
      (`Ipv4Address::Deserialize`). */
  function ReplyLocators(buffer: seq<uint8>, decode: seq<uint8> -> Locator): (r: seq<Locator>)
    requires |buffer| >= EIDSIZE + 2 && |buffer| >= LocatorAt(buffer[EIDSIZE + 1])
    ensures |r| == buffer[EIDSIZE + 1]
    ensures forall i | 0 <= i < |r| :: r[i] == decode(buffer[LocatorAt(i)..LocatorAt(i) + 18])
  {
    seq(buffer[EIDSIZE + 1], i requires 0 <= i < buffer[EIDSIZE + 1] => decode(buffer[LocatorAt(i)..LocatorAt(i) + 18]))
  }

  /** The probes a reply page's first `n` locators cause: one for each
      locator without a delay sample, in order (repeats kept). */
  function UnsampledProbes(locs: seq<Locator>, delay: map<Locator, nat>, port: nat, n: nat): (r: seq<Packet>)
    requires n <= |locs|
    ensures |r| <= n
  {
    if n == 0 then []
    else
      var x := locs[n - 1];
      UnsampledProbes(locs, delay, port, n - 1) + (if x in delay then [] else [Probe(x, port)])
  }

  /** Exactly the listed locators without a delay sample are probed. */
  lemma {:induction false} UnsampledProbesAreUnsampled(locs: seq<Locator>, delay: map<Locator, nat>, port: nat, n: nat)
    requires n <= |locs|
    ensures forall p :: p in UnsampledProbes(locs, delay, port, n) <==>
      exists i | 0 <= i < n :: locs[i] !in delay && p == Probe(locs[i], port)
  {
    if n > 0 {
      UnsampledProbesAreUnsampled(locs, delay, port, n - 1);
    }
  }

  /** Where a finished reply's grafting request goes: the default address
      for an empty page, otherwise the nearest listed locator. */
  function GraftTarget(locs: seq<Locator>, delay: map<Locator, nat>): Locator
  {
    if |locs| == 0 then UNSET_LOCATOR else Nearest(locs, delay)
  }

  /** The probes `DetecAllNeighborDelay` sends for the first `n`
      multicast-table keys in iteration order `order`: one to every tenth
      key (positions 0, 10, 20, ...) other than the switch's own address. */
  function NeighbourProbes(order: seq<Locator>, local: Locator, port: nat, n: nat): (r: seq<Packet>)
    requires n <= |order|
    ensures |r| <= n
  {
    if n == 0 then []
    else
      var x := order[n - 1];
      NeighbourProbes(order, local, port, n - 1) + (if (n - 1) % 10 == 0 && x != local then [Probe(x, port)] else [])
  }

  /** The probed keys are exactly the other switches at positions that are
      multiples of ten, so at most one key in ten is probed. */
  lemma {:induction false} NeighbourProbesAreEveryTenth(order: seq<Locator>, local: Locator, port: nat, n: nat)
    requires n <= |order|
    ensures forall p :: p in NeighbourProbes(order, local, port, n) <==>
      exists i | 0 <= i < n && i % 10 == 0 :: order[i] != local && p == Probe(order[i], port)
    ensures |NeighbourProbes(order, local, port, n)| <= (n + 9) / 10
  {
    if n > 0 {
      NeighbourProbesAreEveryTenth(order, local, port, n - 1);
      TenthStep(n - 1);
    }
  }

  /** Position `m` starts a new group of ten exactly when the count of
      groups grows. */
  lemma TenthStep(m: nat)
    ensures (m + 10) / 10 == (m + 9) / 10 + (if m % 10 == 0 then 1 else 0)
  {
  }

  /** Whether the switch acts on a packet of application `app`: only the
      multicast application for a packet passing through, the switch,
      probing and multicast applications for one addressed to it. */
  predicate Serves(app: uint8, isDst: uint8)
  {
    if isDst == NOT_DST then app == MULTICAST_APPLICATION
    else app == SWITCH_APPLICATION || app == NEIGH_INFO_APPLICATION || app == MULTICAST_APPLICATION
  }

  class SwitchApplication {
    const unicast: CastTable
    const multicast: CastTable
    const resolution: ResolutionTable
    /** The switch's own address (`local_address`). */
    const local: Locator
    const port: nat
    const tree: TreeType
    /** `delay_table`: the last delay sample per neighbour. */
    var delay: map<Locator, nat>
    /** `m_eid_table`: the EIDs this switch holds, with a non-zero presence value. */
    var eids: map<Eid, uint8>
    var sent: seq<Packet>

    /** The shared tables keep their lists duplicate-free; the resolution
        cache holds non-empty lists of interface-0 locators. */
    ghost predicate Valid()
      reads this, unicast, multicast, resolution
    {
      && unicast != multicast
      && CastDistinct(unicast.entries) && CastDistinct(multicast.entries)
      && ResolutionOk(resolution.entries)
    }

    /** The tables come in shared: two distinct cast tables with
        duplicate-free lists and a well-formed resolution cache, as the
        empty tables built at start-up are. */
    constructor (unicast: CastTable, multicast: CastTable, resolution: ResolutionTable, local: Locator, port: nat, tree: TreeType)
      requires unicast != multicast
      requires CastDistinct(unicast.entries) && CastDistinct(multicast.entries)
      requires ResolutionOk(resolution.entries)
      ensures Valid()
      ensures this.unicast == unicast && this.multicast == multicast && this.resolution == resolution
      ensures this.local == local && this.port == port && this.tree == tree
      ensures delay == map[] && eids == map[] && sent == []
    {
      this.unicast, this.multicast, this.resolution := unicast, multicast, resolution;
      this.local, this.port, this.tree := local, port, tree;
      delay, eids, sent := map[], map[], [];
    }

    /** `CheckDuplicate`: whether the list already holds an EID equal to
        `buf` over its twenty bytes (`memcmp`). */
    method CheckDuplicate(head: seq<Eid>, buf: Eid) returns (dup: bool)
      ensures dup <==> buf in head
    {
      var i := 0;
      while i < |head|
        invariant i <= |head| && buf !in head[..i]
      {
        if head[i] == buf {
          return true;
        }
        i := i + 1;
      }
      assert head[..i] == head;
      return false;
    }

    /** `AddCastTable`: see `CastAdd`. */
    method AddCastTable(table: CastTable, i4a: Locator, buf: Eid)
      modifies table
      ensures table.entries == CastAdd(old(table.entries), i4a, buf)
    {
      if i4a !in table.entries || table.entries[i4a].None? {
        table.entries := table.entries[i4a := Some([buf])];
      } else {
        var dup := CheckDuplicate(table.entries[i4a].value, buf);
        if !dup {
          table.entries := table.entries[i4a := Some(table.entries[i4a].value + [buf])];
        }
      }
    }

    /** `AddEIDNAINFO`: see `InfoAdd`; the presence test is a walk over the list. */
    method AddEIDNAINFO(se: Eid, i4a: Locator)
      modifies resolution
      ensures resolution.entries == InfoAdd(old(resolution.entries), se, i4a)
    {
      var l0 := i4a.Iface0();
      if se !in resolution.entries {
        resolution.entries := resolution.entries[se := [l0]];
      } else {
        var list := resolution.entries[se];
        var flag := false;
        var i := 0;
        while i < |list|
          invariant i <= |list| && (flag <==> l0 in list[..i])
        {
          if list[i] == l0 {
            flag := true;
          }
          i := i + 1;
        }
        assert list[..i] == list;
        if !flag {
          resolution.entries := resolution.entries[se := list + [l0]];
        }
      }
    }

    /** `GetSwitchSocre`: both lists are walked and counted. */
    method GetSwitchScore(ad: Locator) returns (r: nat)
      ensures r == Score(unicast.entries, multicast.entries, ad)
    {
      var uNum, mNum := 0, 0;
      if ad in multicast.entries && ad in unicast.entries && multicast.entries[ad].Some? && unicast.entries[ad].Some? {
        var ul, ml := unicast.entries[ad].value, multicast.entries[ad].value;
        var i := 0;
        while i < |ul|
          invariant i <= |ul| && uNum == i
        {
          uNum, i := uNum + 1, i + 1;
        }
        i := 0;
        while i < |ml|
          invariant i <= |ml| && mNum == i
        {
          mNum, i := mNum + 1, i + 1;
        }
      }
      r := uNum + mNum;
    }

    /** `GetRootNode`: the local address when the delay table is empty,
        otherwise the search of `Root` over its keys in iteration order
        `order`. */
    method GetRootNode(order: seq<Locator>) returns (r: Locator)
      requires Distinct(order) && forall l :: l in delay <==> l in order
      ensures r == RootNode(local, order, unicast.entries, multicast.entries)
    {
      if |order| == 0 {
        return local;
      }
      var selected, selectedScore := order[0], START_SCORE;
      var i := 0;
      while i < |order|
        invariant i <= |order| && (selected, selectedScore) == RootUpTo(order, unicast.entries, multicast.entries, i)
      {
        var t := GetSwitchScore(order[i]);
        if t <= selectedScore {
          selected, selectedScore := order[i], t;
        }
        i := i + 1;
      }
      r := selected;
    }

    /** `FindNearestNode`: the default address for an EID not in the cache;
        with an SPT tree the most recently added locator (`back()`);
        otherwise the search of `Nearest` over the cached list. */
    method FindNearestNode(se: Eid) returns (r: Locator)
      requires Valid()
      ensures r == NearestNode(resolution.entries, tree, delay, se)
    {
      if se !in resolution.entries {
        return UNSET_LOCATOR;
      }
      var list := resolution.entries[se];
      if tree == SPT {
        return list[|list| - 1];
      }
      var shortestTime, shortest := FAR, list[0];
      var i := 0;
      while i < |list|
        invariant i <= |list| && (shortest, shortestTime) == NearestUpTo(list, delay, i)
      {
        var temp := list[i];
        if temp in delay && delay[temp] < shortestTime {
          shortestTime, shortest := delay[temp], temp;
        }
        i := i + 1;
      }
      r := shortest;
    }

    /** `LookupEIDTable`: the presence value, 0 for an EID never stored. */
    function LookupEIDTable(se: Eid): (r: uint8)
      reads this
      ensures se !in eids ==> r == 0
      ensures se in eids ==> r == eids[se]
    {
      if se in eids then eids[se] else 0
    }

    /** `AddEIDTable`: writes only over a zero lookup, returning the value
        written, or 0 with the table unchanged. */
    method AddEIDTable(se: Eid, value: uint8) returns (r: uint8)
      modifies this`eids
      ensures old(LookupEIDTable(se)) == 0 ==> eids == old(eids)[se := value] && r == value
      ensures old(LookupEIDTable(se)) != 0 ==> eids == old(eids) && r == 0
    {
      var v := LookupEIDTable(se);
      if v == 0 {
        eids := eids[se := value];
        return value;
      }
      return 0;
    }

    method SendPacket(p: Packet)
      modifies this`sent
      ensures sent == old(sent) + [p]
    {
      sent := sent + [p];
    }

    /** `RequestDataHandle`: `REPLY_DATA` with the EID back to the sender
        exactly when the switch holds the EID. */
    method RequestDataHandle(buffer: seq<uint8>, from: Locator)
      requires |buffer| >= EIDSIZE
      modifies this`sent
      ensures LookupEIDTable(FromBuffer(buffer)) != 0 ==>
        sent == old(sent) + [Emit(SWITCH_APPLICATION, REPLY_DATA, from, port, buffer[..EIDSIZE])]
      ensures LookupEIDTable(FromBuffer(buffer)) == 0 ==> sent == old(sent)
    {
      var se := FromBuffer(buffer);
      if LookupEIDTable(se) != 0 {
        SendPacket(Emit(SWITCH_APPLICATION, REPLY_DATA, from, port, buffer[..EIDSIZE]));
      }
    }

    /** `ReceiveDataHandle`: the switch now holds the EID (presence 1 unless
        already set) and records its own address as a holder. */
    method ReceiveDataHandle(buffer: seq<uint8>)
      requires |buffer| >= EIDSIZE
      modifies this`eids, resolution
      ensures var se := FromBuffer(buffer);
        && eids == (if old(LookupEIDTable(se)) == 0 then old(eids)[se := 1] else old(eids))
        && resolution.entries == InfoAdd(old(resolution.entries), se, local)
    {
      var se := FromBuffer(buffer);
      var _ := AddEIDTable(se, 1);
      AddEIDNAINFO(se, local);
    }

    /** `SwitchProtocolHandle`: data requests and data arrivals; anything else is ignored. */
    method SwitchProtocolHandle(buffer: seq<uint8>, protocolType: uint8, from: Locator)
      requires |buffer| >= EIDSIZE
      modifies this`sent, this`eids, resolution
      ensures protocolType == REQUEST_DATA ==>
        && eids == old(eids) && resolution.entries == old(resolution.entries)
        && sent == old(sent) + (if old(LookupEIDTable(FromBuffer(buffer))) != 0
                                then [Emit(SWITCH_APPLICATION, REPLY_DATA, from, port, buffer[..EIDSIZE])] else [])
      ensures protocolType == RESEIVE_DATA ==>
        && sent == old(sent)
        && eids == (if old(LookupEIDTable(FromBuffer(buffer))) == 0 then old(eids)[FromBuffer(buffer) := 1] else old(eids))
        && resolution.entries == InfoAdd(old(resolution.entries), FromBuffer(buffer), local)
      ensures protocolType != REQUEST_DATA && protocolType != RESEIVE_DATA ==>
        sent == old(sent) && eids == old(eids) && resolution.entries == old(resolution.entries)
    {
      if protocolType == REQUEST_DATA {
        RequestDataHandle(buffer, from);
      } else if protocolType == RESEIVE_DATA {
        ReceiveDataHandle(buffer);
      }
    }

    /** `NeigthInfoProtocolHandle`: a probe is answered; a probe answer
        records `sample` (`Simulator::Now () - stsh.GetTs ()`) for the
        sender moved to interface 0, but only when that key is in the
        multicast table, NULL list or not. */
    method NeigthInfoProtocolHandle(protocolType: uint8, from: Locator, sample: nat)
      modifies this`sent, this`delay
      ensures protocolType == NEIGH_INFO_RECEIVE ==> sent == old(sent) + [ProbeReply(from, port)] && delay == old(delay)
      ensures protocolType == NEIGH_INFO_REPLY ==>
        && sent == old(sent)
        && delay == (if from.Iface0() in multicast.entries then old(delay)[from.Iface0() := sample] else old(delay))
      ensures protocolType != NEIGH_INFO_RECEIVE && protocolType != NEIGH_INFO_REPLY ==>
        sent == old(sent) && delay == old(delay)
    {
      if protocolType == NEIGH_INFO_RECEIVE {
        SendPacket(ProbeReply(from, port));
      } else if protocolType == NEIGH_INFO_REPLY {
        var key := from.Iface0();
        if key in multicast.entries {
          delay := delay[key := sample];
        }
      }
    }

    /** `ResolutionProtocolHandle` on a resolver reply page: every listed
        locator without a delay sample is probed, in order; when the page is
        the last one (byte 20 is 1) a grafting request carrying the EID and
        whatever the rest of the 255-byte stack buffer held (`scratch`) goes
        to the nearest listed locator. Other protocol types are ignored. */
    method ResolutionProtocolHandle(buffer: seq<uint8>, protocolType: uint8, decode: seq<uint8> -> Locator, scratch: seq<uint8>)
      requires protocolType == REPLY_EID_NA ==> |buffer| >= EIDSIZE + 2 && |buffer| >= LocatorAt(buffer[EIDSIZE + 1])
      requires |scratch| == MAX_PAYLOAD_LEN
      modifies this`sent
      ensures protocolType != REPLY_EID_NA ==> sent == old(sent)
      ensures protocolType == REPLY_EID_NA ==>
        var locs := ReplyLocators(buffer, decode);
        var graft := Emit(MULTICAST_APPLICATION, GRAFITING_REQUEST, GraftTarget(locs, delay), port, GetInto(FromBuffer(buffer), scratch));
        sent == old(sent) + UnsampledProbes(locs, delay, port, |locs|) + (if buffer[EIDSIZE] == 1 then [graft] else [])
    {
      if protocolType != REPLY_EID_NA {
        return;
      }
      var se := FromBuffer(buffer);
      var finished := buffer[EIDSIZE];
      var shortest := ScanReply(buffer, decode);
      if finished == 1 {
        SendPacket(Emit(MULTICAST_APPLICATION, GRAFITING_REQUEST, shortest, port, GetInto(se, scratch)));
      }
    }

    /** The loop of `ResolutionProtocolHandle` over the page's locators:
        probes the unsampled ones and answers the nearest. */
    method ScanReply(buffer: seq<uint8>, decode: seq<uint8> -> Locator) returns (shortest: Locator)
      requires |buffer| >= EIDSIZE + 2 && |buffer| >= LocatorAt(buffer[EIDSIZE + 1])
      modifies this`sent
      ensures var locs := ReplyLocators(buffer, decode);
        && shortest == GraftTarget(locs, delay)
        && sent == old(sent) + UnsampledProbes(locs, delay, port, |locs|)
    {
      var ipnum := buffer[EIDSIZE + 1];
      ghost var locs := ReplyLocators(buffer, decode);
      var shortestTime := FAR;
      shortest := UNSET_LOCATOR;
      var i := 0;
      while i < ipnum
        invariant i <= ipnum
        invariant i == 0 ==> shortest == UNSET_LOCATOR && shortestTime == FAR
        invariant i > 0 ==> (shortest, shortestTime) == NearestUpTo(locs, delay, i)
        invariant sent == old(sent) + UnsampledProbes(locs, delay, port, i)
      {
        var ipv4 := decode(buffer[LocatorAt(i)..LocatorAt(i) + 18]);
        assert ipv4 == locs[i];
        if i == 0 {
          shortest := ipv4;
        }
        if ipv4 in delay {
          if delay[ipv4] < shortestTime {
            shortestTime, shortest := delay[ipv4], ipv4;
          }
        } else {
          SendPacket(Probe(ipv4, port));
        }
        i := i + 1;
      }
    }

    /** `DetecAllNeighborDelay`: a probe to every tenth multicast-table key
        in iteration order `order`, skipping the switch's own address. */
    method DetecAllNeighborDelay(order: seq<Locator>)
      requires Distinct(order) && forall l :: l in multicast.entries <==> l in order
      modifies this`sent
      ensures sent == old(sent) + NeighbourProbes(order, local, port, |order|)
    {
      var total := 0;
      while total < |order|
        invariant total <= |order|
        invariant sent == old(sent) + NeighbourProbes(order, local, port, total)
      {
        var i4a := order[total];
        if total % 10 == 0 && i4a != local {
          SendPacket(Probe(i4a, port));
        }
        total := total + 1;
      }
    }

    // -------------------------------------------------------------------
    // The multicast branches of FrontEnd. `iface` is the interface number
    // the header carries, `from` the sender's locator, `eid` the twenty
    // bytes copied out of the payload and `len` how many of them the
    // payload really had (`CopyData(buffer, EIDSIZE)`).

    /** The switch's own locator on the header's interface (`i4a`). */
    function Here(iface: nat): (l: Locator)
      ensures l.ip == local.ip && l.iface == iface
    {
      local.(iface := iface)
    }

    /** Not the destination, `REGIST_TO_RN`: a registration passing through
        is recorded in the unicast table at both of the switch's keys. */
    method RelayRegistToRN(iface: nat, eid: Eid)
      requires Valid()
      modifies unicast
      ensures Valid()
      ensures unicast.entries == CastAddBoth(old(unicast.entries), Here(iface), eid)
    {
      var i4a := Here(iface);
      AddCastTable(unicast, i4a, eid);
      AddCastTable(unicast, i4a.Iface0(), eid);
    }

    /** Not the destination, `GRAFITING_REQUEST`: a switch on the grafting
        path joins the tree (multicast table and resolution cache) and
        answers the sender's delay probe. */
    method RelayGrafting(iface: nat, from: Locator, eid: Eid)
      requires Valid()
      modifies multicast, resolution, this`sent
      ensures Valid()
      ensures multicast.entries == CastAddBoth(old(multicast.entries), Here(iface), eid)
      ensures resolution.entries == InfoAdd(old(resolution.entries), eid, Here(iface).Iface0())
      ensures sent == old(sent) + [ProbeReply(from, port)]
    {
      var i4a := Here(iface);
      AddCastTable(multicast, i4a, eid);
      i4a := i4a.Iface0();
      AddCastTable(multicast, i4a, eid);
      AddEIDNAINFO(eid, i4a);
      SendPacket(ProbeReply(from, port));
    }

    /** Both tables take the EID at both keys and the cache records the
        switch: how the root node registers a group. */
    method RegisterHere(iface: nat, eid: Eid)
      requires Valid()
      modifies unicast, multicast, resolution
      ensures Valid()
      ensures multicast.entries == CastAddBoth(old(multicast.entries), Here(iface), eid)
      ensures unicast.entries == CastAddBoth(old(unicast.entries), Here(iface), eid)
      ensures resolution.entries == InfoAdd(old(resolution.entries), eid, Here(iface).Iface0())
    {
      var i4a := Here(iface);
      AddCastTable(multicast, i4a, eid);
      AddCastTable(unicast, i4a, eid);
      i4a := i4a.Iface0();
      AddCastTable(multicast, i4a, eid);
      AddCastTable(unicast, i4a, eid);
      AddEIDNAINFO(eid, i4a);
    }

    /** The root node a source's designated router picks: by load score
        for a Seanet tree, itself for an SPT tree, and a default address
        for any other tree type. */
    function ChosenRoot(iface: nat, order: seq<Locator>): (r: Locator)
      reads unicast, multicast
      ensures tree == Seanet ==> r == local || r in order
      ensures tree == Seanet && |order| == 0 ==> r == local
      ensures tree == SPT ==> r == Here(iface)
      ensures tree == OtherTree ==> r == UNSET_LOCATOR
    {
      match tree
      case Seanet => RootNode(local, order, unicast.entries, multicast.entries)
      case SPT => Here(iface)
      case OtherTree => UNSET_LOCATOR
    }

    /** Destination, `REGIST_TO_SOURCE_DR`: when the chosen root is this
        very switch (same address and interface) the group is registered
        here, otherwise the registration is forwarded to the root. */
    method RegistToSourceDR(iface: nat, eid: Eid, len: nat, order: seq<Locator>)
      requires Valid() && len <= EIDSIZE
      requires Distinct(order) && forall l :: l in delay <==> l in order
      modifies unicast, multicast, resolution, this`sent
      ensures Valid()
      ensures old(ChosenRoot(iface, order)) == Here(iface) ==>
        && multicast.entries == CastAddBoth(old(multicast.entries), Here(iface), eid)
        && unicast.entries == CastAddBoth(old(unicast.entries), Here(iface), eid)
        && resolution.entries == InfoAdd(old(resolution.entries), eid, Here(iface).Iface0())
        && sent == old(sent)
      ensures old(ChosenRoot(iface, order)) != Here(iface) ==>
        && multicast.entries == old(multicast.entries) && unicast.entries == old(unicast.entries)
        && resolution.entries == old(resolution.entries)
        && sent == old(sent) + [Emit(MULTICAST_APPLICATION, REGIST_TO_RN, old(ChosenRoot(iface, order)), port, eid[..len])]
    {
      var i4a := Here(iface);
      var rn := UNSET_LOCATOR;
      if tree == Seanet {
        rn := GetRootNode(order);
      } else if tree == SPT {
        rn := i4a;
      }
      if rn == i4a {
        RegisterHere(iface, eid);
      } else {
        SendPacket(Emit(MULTICAST_APPLICATION, REGIST_TO_RN, rn, port, eid[..len]));
      }
    }

    /** Destination, `REGIST_TO_RN`: the root node registers the group and
        answers the sender's delay probe. */
    method RegistToRN(iface: nat, from: Locator, eid: Eid)
      requires Valid()
      modifies unicast, multicast, resolution, this`sent
      ensures Valid()
      ensures multicast.entries == CastAddBoth(old(multicast.entries), Here(iface), eid)
      ensures unicast.entries == CastAddBoth(old(unicast.entries), Here(iface), eid)
      ensures resolution.entries == InfoAdd(old(resolution.entries), eid, Here(iface).Iface0())
      ensures sent == old(sent) + [ProbeReply(from, port)]
    {
      RegisterHere(iface, eid);
      SendPacket(ProbeReply(from, port));
    }

    /** Destination, `GRAFITING_REQUEST`: a tree member sends the data back,
        answers the delay probe and records the EID in its multicast table. */
    method Grafting(iface: nat, from: Locator, eid: Eid, len: nat)
      requires Valid() && len <= EIDSIZE
      modifies multicast, this`sent
      ensures Valid()
      ensures multicast.entries == CastAddBoth(old(multicast.entries), Here(iface), eid)
      ensures sent == old(sent) + [Emit(MULTICAST_APPLICATION, MULTICAST_DATA_TRANS, from, port, eid[..len]), ProbeReply(from, port)]
    {
      SendPacket(Emit(MULTICAST_APPLICATION, MULTICAST_DATA_TRANS, from, port, eid[..len]));
      SendPacket(ProbeReply(from, port));
      var i4a := Here(iface);
      AddCastTable(multicast, i4a, eid);
      AddCastTable(multicast, i4a.Iface0(), eid);
    }

    /** Destination, `REGIST_TO_DEST_DR`: a receiver's designated router
        records the EID and sends a grafting request to the nearest switch
        holding the group. */
    method RegistToDestDR(iface: nat, eid: Eid, len: nat)
      requires Valid() && len <= EIDSIZE
      modifies multicast, this`sent
      ensures Valid()
      ensures multicast.entries == CastAddBoth(old(multicast.entries), Here(iface), eid)
      ensures sent == old(sent) +
        [Emit(MULTICAST_APPLICATION, GRAFITING_REQUEST, NearestNode(resolution.entries, tree, delay, eid), port, eid[..len])]
    {
      var i4a := Here(iface);
      AddCastTable(multicast, i4a, eid);
      AddCastTable(multicast, i4a.Iface0(), eid);
      var nearest := FindNearestNode(eid);
      SendPacket(Emit(MULTICAST_APPLICATION, GRAFITING_REQUEST, nearest, port, eid[..len]));
    }

    /** What `FrontEnd` does with a packet once its header is removed:
        `data` is the payload as copied into the receive buffer (the
        bytes past `size` are whatever the buffer held), `sample` the
        delay a probe answer measured. A packet not for this switch only
        matters to the multicast application; one for it is dispatched by
        application type, and resolver traffic is ignored. */
    method FrontEnd(app: uint8, protocolType: uint8, isDst: uint8, iface: nat, from: Locator,
                    data: seq<uint8>, size: nat, sample: nat, order: seq<Locator>)
      requires Valid() && |data| == MAX_PAYLOAD_LEN
      requires Distinct(order) && forall l :: l in delay <==> l in order
      modifies unicast, multicast, resolution, this`sent, this`eids, this`delay
      ensures Valid()
      ensures !Serves(app, isDst) ==>
        && unicast.entries == old(unicast.entries) && multicast.entries == old(multicast.entries)
        && resolution.entries == old(resolution.entries)
        && sent == old(sent) && eids == old(eids) && delay == old(delay)
    {
      var eid := FromBuffer(data);
      var len := if size < EIDSIZE then size else EIDSIZE;
      if isDst == NOT_DST {
        if app == MULTICAST_APPLICATION {
          if protocolType == REGIST_TO_RN {
            RelayRegistToRN(iface, eid);
          } else if protocolType == GRAFITING_REQUEST {
            RelayGrafting(iface, from, eid);
          }
        }
      } else if app == SWITCH_APPLICATION {
        SwitchProtocolHandle(data, protocolType, from);
      } else if app == NEIGH_INFO_APPLICATION {
        NeigthInfoProtocolHandle(protocolType, from, sample);
      } else if app == MULTICAST_APPLICATION {
        if protocolType == REGIST_TO_SOURCE_DR {
          RegistToSourceDR(iface, eid, len, order);
        } else if protocolType == REGIST_TO_RN {
          RegistToRN(iface, from, eid);
        } else if protocolType == GRAFITING_REQUEST {
          Grafting(iface, from, eid, len);
        } else if protocolType == REGIST_TO_DEST_DR {
          RegistToDestDR(iface, eid, len);
        }
      }
    }
  }
}
