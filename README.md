# Seanet overlay: a verified model of its table logic and wire codecs

Seanet is an information-centric overlay simulated on ns-3. Data and
multicast groups are named by 20-byte EIDs. Switches keep shared unicast and
multicast tables (locator → EID list), a resolution cache (EID → locator
list), a neighbour delay table and an EID presence cache. A resolver maps EIDs
to the addresses registered for them and answers in pages of ten. Storage and
multicast clients drive the system with counters.

This project models, in Dafny:

- **the v4 switch** (`SwitchV4`, switch_v4.dfy): duplicate-free table appends,
  load score, root selection, nearest-node selection, the presence cache, the
  probe handlers, the `REPLY_EID_NA` graft logic, every-tenth neighbour
  probing and the multicast branches of `FrontEnd`;
- **the v4 resolver** (`ResolverV4`, resolver_v4.dfy): registration by
  unconditional append, and the paginated answer built slot by slot in a
  255-byte array;
- **the legacy resolver** (`ResolverLegacy`, resolver_legacy.dfy): the capped
  55-byte value buffer updated in place;
- **the two client drivers** (`MulticastClient`, `StorageClient`): EID
  synthesis from the send counter, bounded counters, neighbour delays
  written while the stored delay is not positive, and reply parsing;
- **the wire codecs**: the EID value type and Bob Jenkins' lookup2 hash
  (`SeanetEid`), the three header classes (`AppHeader`, `NixHeader`,
  `InternetHeader` over `HeaderWire`) and `SeanetAddress` (`SeanetAddr`).

Modelling conventions:

- Every socket send becomes a `Packet` appended to the object's `sent` field.
- A client's scheduled follow-up event (`Write`, `Read`) becomes a boolean
  result. The switch's probes, scheduled 10 µs ahead, are sent at once.
- An `Ipv4Address` becomes a `Locator(ip, iface)`. Its deserialisation from
  18 address bytes is a `decode` parameter.
- Bytes are `uint8` integers with `% 256` written where C++ truncates.
  32-bit words are `uint32` with explicit `% 2^32` wrap-around.
- Hash-map iteration order is a caller-given `order` sequence.
- Uninitialised stack buffers are a `scratch` parameter.
- The switch's header is taken to be the three-byte `SeanetHeader` of the
  applications, whose two-argument constructor sets the destination flag to 1,
  so every switch send carries `IS_DST`. The switch also reads an interface
  number from that header (`GetInterface`), which only the four-byte nix
  `SeanetHeader_` defines, and that header's two-argument constructor sets
  the flag to 0. The model takes the interface number as `FrontEnd`'s `iface`
  parameter.
- Delay samples are naturals supplied by the caller. On the client side they
  are integers, because an absent entry reads as -1.

Behaviour of the code worth noting, which the model follows:

- `FindNearestNode` for an SPT tree returns the most recently cached locator
  (`back()`), and a default address when the EID is not cached.
- `GetRootNode` scans the delay table, not the multicast table. Through `<=` it
  prefers the last minimal key, and it starts from a score of 10000.
- The v4 resolver keeps duplicate registrations.
- The v4 switch's `ResolutionProtocolHandle` is never dispatched from
  `FrontEnd`. It is modelled standalone.
- The v4 storage client sends its resolver query with the switch code
  `REQUEST_DATA` (1), which equals the resolver's `REQUEST_EID_NA`.
- The v4 storage client parses the reply in the legacy layout: the count at
  byte 20 and the first address at byte 21. It decodes a port and then sends
  to the switch port. The v4 helper pairs it with the paginated resolver:
  there it reads a page's finished flag as the count, so it requests only on
  the last page, and from an address made of the count byte and 17 bytes of
  the first address (`StorageClient.ClientMisreadsPagedAnswer`).
- A multicast reader whose counter is a multiple of 7000 asks for an EID that
  no writer registers (`MulticastClient.ReadAtUnitBoundaryMissesWrites`).
- Past 25600 requests the `(uint8_t)` cast of the reader's hundreds wraps, so
  the reader asks again for early groups: with four writers request 25700
  names writer group 100, not 4700 (`MulticastClient.ReadGroup`,
  `MulticastClient.ReadEidIsWriteEid`).
- The clients' `AddNeighDelay` tests `Time::IsNegative`, which holds for zero
  too: a stored zero delay is overwritten by the next sample.

## Model

| member | source | states |
|---|---|---|
| Bytes.Zeros | src/applications/model/storage-resolution-application.cc:255 | `memset(…, 0, n)`: n bytes, all zero |
| Bytes.Repeat | src/applications/model/multicast-client-application-v4.cc:221 | a run of n copies of one byte, as the clients' `memcpy` of a character string leaves |
| Bytes.Overwrite | src/applications/model/storage-resolution-application.cc:257 | a `memcpy` into a buffer keeps its length, puts `src` at `off` and keeps every byte outside that window |
| Bytes.Memcpy | src/applications/model/storage-resolution-application.cc:269 | the in-place copy leaves the array equal to `Overwrite` of its old contents |
| Bytes.MemsetTail | src/applications/model/resolution-application-v4.cc:307 | clearing from an offset keeps the prefix and zero-fills the rest |
| SeanetEid.DefaultEid | src/network/utils/seanet-eid.cc:89-91 | the default EID is twenty zero bytes |
| SeanetEid.FromBuffer | src/network/utils/seanet-eid.cc:93-95 | the buffer constructor copies the first 20 bytes |
| SeanetEid.GetInto | src/network/utils/seanet-eid.cc:97-99 | `getSeanetEID` overwrites exactly the first 20 bytes of the destination |
| SeanetEid.SetFrom | src/network/utils/seanet-eid.cc:101-103 | `setSeanetEID` replaces all 20 bytes by the buffer's |
| SeanetEid.GetAfterFromBuffer | src/network/utils/seanet-eid.cc:93-99 | constructing from a buffer and reading back returns the same 20 bytes |
| SeanetEid.Equal | src/network/utils/seanet-eid.h:38-48 | byte-wise `operator==` holds iff the EIDs are equal, and equal EIDs hash equally |
| SeanetEid.Add32 | src/network/utils/seanet-eid.cc:52-54 | `+=` on `uint32_t` is the plain sum below 2^32 and wraps by exactly 2^32 above it |
| SeanetEid.XorBelow | src/network/utils/seanet-eid.cc:27-35 | the bitwise xor of two words stays inside the word |
| SeanetEid.Word | src/network/utils/seanet-eid.cc:52-54 | a key word is its four bytes read little-endian: its low byte is `k[i]` and its high byte `k[i+3]` |
| SeanetEid.Absorb | src/network/utils/seanet-eid.cc:50-58 | the 12-byte block loop leaves the last `len mod 12` bytes of the key as its tail |
| SeanetEid.LookupHash | src/network/utils/seanet-eid.cc:22-83 | the loop and fall-through switch compute `lookuphash` as specified block by block |
| SeanetEid.AbsorbStep | src/network/utils/seanet-eid.cc:50-58 | one loop turn adds three words to a, b and c and mixes |
| SeanetEid.FallThrough | src/network/utils/seanet-eid.cc:61-76 | the fall-through `switch` on the remaining length adds the padded tail words and the length |
| SeanetEid.FallThroughIsPaddedWords | src/network/utils/seanet-eid.cc:61-76 | the byte-by-byte additions of the fall-through equal adding whole zero-padded words |
| SeanetEid.SeanetEidHashUnrolled | src/network/utils/seanet-eid.cc:116-123 | the EID hash is lookup2 from a = b = 0x9e3779b9, c = 0: one block mix, c += 20, the last 8 bytes into a and b, a second mix |
| SeanetEid.EightByteTail | src/network/utils/seanet-eid.cc:61-74 | an 8-byte tail adds two full words to a and b and the length to c |
| Protocol.PortOf | src/applications/model/storage-client-application-v4.cc:256 | `lo \| (hi << 8)` is a 16-bit port whose low byte is `lo` and high byte `hi` |
| HeaderWire.Encode3 | src/applications/model/seanet-header.cc:119-127 | three bytes: application type, protocol type, destination flag, in that order |
| HeaderWire.Decode3 | src/applications/model/seanet-header.cc:128-137 | the decoded fields encode back to the three bytes read |
| HeaderWire.Decode3Encode3 | src/applications/model/seanet-header.cc:119-137 | decoding what was encoded gives back all three fields |
| HeaderWire.Encode4 | src/nix-vector-routing/model/seanet-header_.cc:124-133 | the three-byte header followed by the interface number |
| HeaderWire.Decode4 | src/nix-vector-routing/model/seanet-header_.cc:134-144 | the decoded fields and interface encode back to the four bytes read |
| HeaderWire.Decode4Encode4 | src/nix-vector-routing/model/seanet-header_.cc:124-144 | decoding what was encoded gives back the fields and the interface |
| AppHeader.SeanetHeader.constructor | src/applications/model/seanet-header.cc:32-38 | the default header is (1, 1, 1) |
| AppHeader.SeanetHeader.WithTypes | src/applications/model/seanet-header.cc:39-45 | the two-argument constructor sets is_dst to 1 |
| AppHeader.SeanetHeader.WithDst | src/applications/model/seanet-header.cc:46-53 | the three-argument constructor sets all three fields |
| AppHeader.SeanetHeader.SetApplicationType | src/applications/model/seanet-header.cc:54-59 | only the application type changes |
| AppHeader.SeanetHeader.Setdst | src/applications/model/seanet-header.cc:66-69 | only the destination flag changes |
| AppHeader.SeanetHeader.SetProtocolType | src/applications/model/seanet-header.cc:76-81 | only the protocol type changes |
| AppHeader.SeanetHeader.Serialize | src/applications/model/seanet-header.cc:119-127 | the three field bytes are written at `start` and nothing else changes |
| AppHeader.SeanetHeader.Deserialize | src/applications/model/seanet-header.cc:128-137 | the fields are read from the three bytes, and the serialized size (3) is returned |
| AppHeader.RoundTrip | src/applications/model/seanet-header.cc:112-137 | deserializing what a header serialized reproduces its fields and consumes 3 bytes |
| NixHeader.SeanetHeaderNix.constructor | src/nix-vector-routing/model/seanet-header_.cc:32-38 | the default header is (1, 1, 0), with no interface number set yet |
| NixHeader.SeanetHeaderNix.WithTypes | src/nix-vector-routing/model/seanet-header_.cc:39-45 | the two-argument constructor sets is_dst to 0 |
| NixHeader.SeanetHeaderNix.WithDst | src/nix-vector-routing/model/seanet-header_.cc:46-53 | the three-argument constructor sets the three fields |
| NixHeader.SeanetHeaderNix.SetApplicationType | src/nix-vector-routing/model/seanet-header_.cc:54-59 | only the application type changes |
| NixHeader.SeanetHeaderNix.Setdst | src/nix-vector-routing/model/seanet-header_.cc:66-69 | only the destination flag changes |
| NixHeader.SeanetHeaderNix.SetInterface | src/nix-vector-routing/model/seanet-header_.cc:75-80 | the interface number is stored and `GetInterface` returns it; the fields are unchanged |
| NixHeader.SeanetHeaderNix.SetProtocolType | src/nix-vector-routing/model/seanet-header_.cc:81-86 | only the protocol type changes |
| NixHeader.SeanetHeaderNix.Serialize | src/nix-vector-routing/model/seanet-header_.cc:124-133 | four bytes, the interface number fourth, written at `start` |
| NixHeader.SeanetHeaderNix.Deserialize | src/nix-vector-routing/model/seanet-header_.cc:134-144 | all four fields are read back and 4 is returned |
| NixHeader.RoundTrip | src/nix-vector-routing/model/seanet-header_.cc:117-144 | deserializing what a header serialized reproduces its fields and its interface number |
| InternetHeader.SeanetHeaderInternet.constructor | src/internet/model/seanet-header__.cc:32-38 | the default header has is_dst 0 |
| InternetHeader.SeanetHeaderInternet.WithTypes | src/internet/model/seanet-header__.cc:39-45 | the two-argument constructor sets is_dst to 0 |
| InternetHeader.SeanetHeaderInternet.WithDst | src/internet/model/seanet-header__.cc:46-53 | the three-argument constructor sets the three fields |
| InternetHeader.SeanetHeaderInternet.SetApplicationType | src/internet/model/seanet-header__.cc:54-59 | only the application type changes |
| InternetHeader.SeanetHeaderInternet.Setdst | src/internet/model/seanet-header__.cc:66-69 | only the destination flag changes |
| InternetHeader.SeanetHeaderInternet.SetProtocolType | src/internet/model/seanet-header__.cc:76-81 | only the protocol type changes |
| InternetHeader.SeanetHeaderInternet.Serialize | src/internet/model/seanet-header__.cc:119-127 | application type, protocol type, is_dst, in that order |
| InternetHeader.SeanetHeaderInternet.Deserialize | src/internet/model/seanet-header__.cc:128-137 | the three fields are read back and 3 is returned |
| InternetHeader.RoundTrip | src/internet/model/seanet-header__.cc:112-137 | serialize then deserialize is the identity on the three fields |
| SeanetAddr.GetSize | src/network/model/seanet-address.h:113-116 | the type byte, the length byte and the 20-byte data array: room for every well-formed wire form |
| SeanetAddr.SeanetAddress.constructor | src/network/model/seanet-address.cc:32-40 | an empty address: type 0, length 0 |
| SeanetAddr.SeanetAddress.FromBytes | src/network/model/seanet-address.cc:41-48 | with len ≤ 20, exactly `len` bytes of the buffer are copied |
| SeanetAddr.SeanetAddress.Copy | src/network/model/seanet-address.cc:49-55 | the copy has the same type, length and first `len` bytes |
| SeanetAddr.SeanetAddress.FromAddressAsWritten | src/network/model/seanet-address.cc:56-63 | as written: the type and length come from bytes 0 and 1, and the copy is asked for as many bytes as `CopyAllTo` returned, which exceeds `m_data` exactly for wires over 20 bytes; the bytes that fit are copied and the rest of `m_data` is untouched |
| SeanetAddr.SeanetAddress.FromAddress | src/network/model/seanet-address.cc:56-63 | corrected: exactly the announced `len` data bytes are copied |
| SeanetAddr.SeanetAddress.ToAddress | src/network/model/seanet-address.cc:64-70 | the wire form is `[type, len, data[0..len)]`, `len + 2` bytes long |
| SeanetAddr.FromThenTo | src/network/model/seanet-address.cc:56-70 | `toAddress` after (corrected) `fromAddress` gives back the same wire bytes |
| SeanetAddr.AsWrittenOverrunsLongAddresses | src/network/model/seanet-address.cc:58-61 | running the as-written copy on a 19- or 20-byte address asks for `len - 18` bytes more than `m_data` holds, read past the 22-byte stack buffer |
| SeanetAddr.AsWrittenKeepsShortAddresses | src/network/model/seanet-address.cc:56-63 | as written, addresses of up to 18 bytes still come out with exactly their data; the stray bytes land past `len` |
| ResolverV4.ResolutionApplication.constructor | src/applications/model/resolution-application-v4.cc:69-73 | an empty table and no packets sent |
| ResolverV4.ResolutionApplication.LookupEIDNATable | src/applications/model/resolution-application-v4.cc:228-238 | NULL iff the EID was never registered, else its list |
| ResolverV4.ResolutionApplication.AddEIDNATable | src/applications/model/resolution-application-v4.cc:239-258 | a first registration creates a one-element list; later ones append unconditionally (duplicates kept); other EIDs untouched; the returned list is the EID's new list |
| ResolverV4.ResolutionApplication.ResolutionProtocolHandle | src/applications/model/resolution-application-v4.cc:260-273 | a request sends the EID's reply pages, a registration appends the sender, any other type changes nothing |
| ResolverV4.ResolutionApplication.RegistHandle | src/applications/model/resolution-application-v4.cc:323-327 | the sender's address is appended to the list of the EID in the first 20 payload bytes |
| ResolverV4.ResolutionApplication.RequestHandle | src/applications/model/resolution-application-v4.cc:275-321 | an unknown EID gets no reply; a known one gets exactly the replies of its list |
| ResolverV4.ResolutionApplication.SendList | src/applications/model/resolution-application-v4.cc:282-318 | the slot-by-slot loop over the list sends exactly the declarative replies, page by page |
| ResolverV4.ResolutionApplication.StampAndSend | src/applications/model/resolution-application-v4.cc:293-296 | the flag and count bytes are written and the whole buffer is sent to the requester |
| ResolverV4.ResolutionApplication.HandleAddress | src/applications/model/resolution-application-v4.cc:287-308 | one loop turn: the address goes into its slot, and a page it fills is sent and the buffer cleared past the EID |
| ResolverV4.ResolutionApplication.SendFullPage | src/applications/model/resolution-application-v4.cc:292-308 | the tenth address of a page sends it with count 10, flagged finished iff no address follows, and clears the buffer past the EID |
| ResolverV4.ResolutionApplication.SendLastPage | src/applications/model/resolution-application-v4.cc:310-318 | a part-filled last page is sent flagged finished with count N mod 10, completing the replies |
| ResolverV4.FillPush | src/applications/model/resolution-application-v4.cc:290 | copying the next address writes the next free slot of the page |
| ResolverV4.FillHeader | src/applications/model/resolution-application-v4.cc:293-294 | writing the flag and count bytes replaces only the page's two header bytes |
| ResolverV4.PushIsPage | src/applications/model/resolution-application-v4.cc:290-291 | the buffer after copying address m is the open page with one more slot |
| ResolverV4.StampIsPage | src/applications/model/resolution-application-v4.cc:292-317 | stamping a closed page with its flag and count gives the declarative page body |
| ResolverV4.BufferKeepsEid | src/applications/model/resolution-application-v4.cc:283-307 | the requested EID stays at the head of the buffer, because both memsets start at EIDSIZE |
| ResolverV4.BufferIsPage | src/applications/model/resolution-application-v4.cc:285-308 | after n addresses the buffer holds the open page with its addresses so far |
| ResolverV4.PageIsBody | src/applications/model/resolution-application-v4.cc:285-317 | the page the loop sends equals the declarative page body |
| ResolverV4.FullPageStep | src/applications/model/resolution-application-v4.cc:292-308 | sending a full page keeps the EID, resets the buffer to the EID plus zeros, and extends the replies by that page |
| ResolverV4.PageContinues | src/applications/model/resolution-application-v4.cc:292-308 | an address that does not fill its page sends nothing |
| ResolverV4.AppendReply | src/applications/model/resolution-application-v4.cc:285-317 | sending reply k after the first k extends the replies by one |
| ResolverV4.LastPageIsReply | src/applications/model/resolution-application-v4.cc:310-318 | the full pages plus a finished part page when N mod 10 ≠ 0 are all the replies |
| ResolverV4.ConcatSlot | src/applications/model/resolution-application-v4.cc:290 | slot j of the addresses laid end to end holds address j |
| ResolverV4.FillLayout | src/applications/model/resolution-application-v4.cc:283-294 | a page is the EID, the flag, the count, its slots in order, then the old buffer contents |
| ResolverV4.PageHeader | src/applications/model/resolution-application-v4.cc:283-317 | reply k starts with the EID, is flagged finished iff it is the last, and its count is its number of addresses |
| ResolverV4.PageSlots | src/applications/model/resolution-application-v4.cc:290 | address i of reply k sits at offset EIDSIZE+2+18·(i − 10k) |
| ResolverV4.RepliesUpToAt | src/applications/model/resolution-application-v4.cc:285-317 | the k-th of the first m replies is reply k |
| ResolverV4.RepliesArePages | src/applications/model/resolution-application-v4.cc:285-318 | N addresses give exactly ceil(N/10) `REPLY_EID_NA` replies to the requester, reply k being page k |
| ResolverV4.AddressIsSent | src/applications/model/resolution-application-v4.cc:285-318 | every registered address i appears in reply i / 10 at slot i mod 10 |
| ResolverV4.RegisterAllAppends | src/applications/model/resolution-application-v4.cc:239-258 | registering a sequence appends it in order, duplicates included, touching no other EID |
| ResolverV4.PageBounds | src/applications/model/resolution-application-v4.cc:292-312 | every page is non-empty, only the last reaches N, and it holds N mod 10 addresses (10 when N mod 10 = 0) |
| ResolverV4.ReplyHeader | src/applications/model/resolution-application-v4.cc:292-317 | reply k carries the EID, `PACKET_FINISH` iff it is the last, and count 10 or N mod 10 |
| ResolverLegacy.FirstValue | src/applications/model/storage-resolution-application.cc:253-257 | a first registration is a zeroed 55-byte value, count 1, the address in slot 0 |
| ResolverLegacy.NextValue | src/applications/model/storage-resolution-application.cc:264-273 | below three addresses the new one goes to slot n and the count becomes n+1, nothing else changes; at three nothing changes |
| ResolverLegacy.RegisterAll | src/applications/model/storage-resolution-application.cc:251-276 | any registration sequence keeps the value well-formed: 55 bytes, count ≤ 3 |
| ResolverLegacy.Answer | src/applications/model/storage-resolution-application.cc:300-302 | the reply is the EID followed by the 55-byte value |
| ResolverLegacy.NewValue | src/applications/model/storage-resolution-application.cc:253-257 | the allocated buffer holds `FirstValue` |
| ResolverLegacy.AppendValue | src/applications/model/storage-resolution-application.cc:265-272 | the in-place update leaves `NextValue` of the old buffer |
| ResolverLegacy.RegisterAllKeepsFirstThree | src/applications/model/storage-resolution-application.cc:251-276 | after any registrations the count is min(n, 3), the first three addresses sit in order (duplicates included) and the rest is zero |
| ResolverLegacy.ResolutionApplication.constructor | src/applications/model/storage-resolution-application.cc:70-74 | an empty table |
| ResolverLegacy.ResolutionApplication.LookupEIDNATable | src/applications/model/storage-resolution-application.cc:240-250 | NULL iff the EID is absent |
| ResolverLegacy.ResolutionApplication.AddEIDNATable | src/applications/model/storage-resolution-application.cc:251-276 | the EID's value becomes `Registered` of its old value; other EIDs keep theirs; buffers stay distinct and well-formed |
| ResolverLegacy.ResolutionApplication.AddNew | src/applications/model/storage-resolution-application.cc:253-262 | a new EID gets a fresh `FirstValue` buffer |
| ResolverLegacy.ResolutionApplication.AddExisting | src/applications/model/storage-resolution-application.cc:263-274 | a known EID's buffer becomes `NextValue` of itself, in place |
| ResolverLegacy.ResolutionApplication.RequestHandle | src/applications/model/storage-resolution-application.cc:293-306 | nothing for an unknown EID; otherwise one reply with the EID and its value |
| ResolverLegacy.ResolutionApplication.ResolutionProtocolHandle | src/applications/model/storage-resolution-application.cc:278-291 | requests answer, registrations update, other types change nothing |
| ResolverLegacy.ResolutionApplication.RegistHandle | src/applications/model/storage-resolution-application.cc:308-317 | the sender's address is registered for the EID |
| SwitchV4.Score | src/applications/model/switch-application-v4.cc:206-238 | a positive score means both tables hold a list at the address; then it is the sum of their lengths |
| SwitchV4.Root | src/applications/model/switch-application-v4.cc:239-260 | the root picked is one of the keys scanned |
| SwitchV4.CastAdd | src/applications/model/switch-application-v4.cc:467-485 | an absent or NULL key gets `[buf]`; otherwise buf is appended only if no equal EID is listed; other keys untouched; no list gains a duplicate |
| SwitchV4.InfoAdd | src/applications/model/switch-application-v4.cc:672-702 | the interface-0 locator is appended only if absent; other EIDs untouched; lists stay duplicate-free and interface-0 |
| SwitchV4.NearestUpToIsMin | src/applications/model/switch-application-v4.cc:535-545 | the running minimum is at most every known delay, and is the earliest strict minimum |
| SwitchV4.NearestIsEarliestMinimum | src/applications/model/switch-application-v4.cc:517-548 | the first locator unless one has a strictly smaller known delay; then the earliest-listed minimum |
| SwitchV4.RootUpToIsMin | src/applications/model/switch-application-v4.cc:247-258 | the running root has the least score; later keys with the same score displace earlier ones |
| SwitchV4.RootIsLastMinimum | src/applications/model/switch-application-v4.cc:239-261 | a key of minimal score, the last such in iteration order; the first key if every score exceeds 10000 |
| SwitchV4.CastAddBoth | src/applications/model/switch-application-v4.cc:313-315 | registering under the locator and its interface-0 form lists the EID at both, keeps the rest and keeps lists duplicate-free |
| SwitchV4.ReplyLocators | src/applications/model/switch-application-v4.cc:561-562 | the reply holds `count` locators, the i-th decoded from offset EIDSIZE+2+18i |
| SwitchV4.UnsampledProbesAreUnsampled | src/applications/model/switch-application-v4.cc:561-575 | a probe is sent to exactly those listed locators with no delay sample |
| SwitchV4.NeighbourProbesAreEveryTenth | src/applications/model/switch-application-v4.cc:703-721 | exactly every tenth neighbour in iteration order, other than the switch itself, is probed; at most ceil(n/10) probes |
| SwitchV4.SwitchApplication.constructor | src/applications/model/switch-application-v4.cc:86-100 | empty delay table, presence cache and trace; given two distinct duplicate-free cast tables and a well-formed resolution cache, the switch starts in its invariant |
| SwitchV4.SwitchApplication.CheckDuplicate | src/applications/model/switch-application-v4.cc:263-270 | true iff an equal EID is already listed |
| SwitchV4.SwitchApplication.AddCastTable | src/applications/model/switch-application-v4.cc:467-485 | the table becomes `CastAdd` of its old entries |
| SwitchV4.SwitchApplication.AddEIDNAINFO | src/applications/model/switch-application-v4.cc:672-702 | the cache becomes `InfoAdd` of its old entries |
| SwitchV4.SwitchApplication.GetSwitchScore | src/applications/model/switch-application-v4.cc:206-238 | the two list lengths summed when both tables hold a list for the address, else 0 |
| SwitchV4.SwitchApplication.GetRootNode | src/applications/model/switch-application-v4.cc:239-261 | the local address for an empty delay table, else the last minimal-score key |
| SwitchV4.SwitchApplication.FindNearestNode | src/applications/model/switch-application-v4.cc:517-548 | SPT: the last cached locator; otherwise the nearest; a default address when uncached |
| SwitchV4.SwitchApplication.LookupEIDTable | src/applications/model/switch-application-v4.cc:456-466 | the stored presence value, or 0 for an unknown EID |
| SwitchV4.SwitchApplication.AddEIDTable | src/applications/model/switch-application-v4.cc:486-493 | writes only when the lookup is 0, returning the value written, else 0 and no change |
| SwitchV4.SwitchApplication.RequestDataHandle | src/applications/model/switch-application-v4.cc:508-515 | `REPLY_DATA` with the EID goes back iff its presence value is non-zero |
| SwitchV4.SwitchApplication.ReceiveDataHandle | src/applications/model/switch-application-v4.cc:592-601 | the EID is marked present (first write wins) and the switch registered for it |
| SwitchV4.SwitchApplication.SwitchProtocolHandle | src/applications/model/switch-application-v4.cc:494-507 | requests answer, stores register, other types change nothing |
| SwitchV4.SwitchApplication.NeigthInfoProtocolHandle | src/applications/model/switch-application-v4.cc:631-670 | a probe is answered; an answer overwrites the sender's interface-0 delay only if it is a multicast-table key |
| SwitchV4.SwitchApplication.ResolutionProtocolHandle | src/applications/model/switch-application-v4.cc:550-591 | every unsampled locator is probed; a graft request goes to the nearest locator only when the finished byte is 1 |
| SwitchV4.SwitchApplication.ScanReply | src/applications/model/switch-application-v4.cc:554-575 | the loop probes the unsampled locators and keeps the earliest strict minimum as graft target |
| SwitchV4.SwitchApplication.DetecAllNeighborDelay | src/applications/model/switch-application-v4.cc:703-721 | the probes sent are `NeighbourProbes` of the iteration order |
| SwitchV4.SwitchApplication.Here | src/applications/model/switch-application-v4.cc:296-297 | the switch's own IP with the arrival interface |
| SwitchV4.SwitchApplication.RelayRegistToRN | src/applications/model/switch-application-v4.cc:310-315 | a passing `REGIST_TO_RN` registers the EID in the unicast table under both locators |
| SwitchV4.SwitchApplication.RelayGrafting | src/applications/model/switch-application-v4.cc:316-326 | a passing graft joins the multicast table, the resolution cache, and answers the sender's probe |
| SwitchV4.SwitchApplication.RegisterHere | src/applications/model/switch-application-v4.cc:373-381 | both tables under both locators and the resolution cache under interface 0 |
| SwitchV4.SwitchApplication.ChosenRoot | src/applications/model/switch-application-v4.cc:362-389 | a Seanet tree's root is the local address or one of the keys, an SPT tree roots at this switch, any other tree at the default address |
| SwitchV4.SwitchApplication.RegistToSourceDR | src/applications/model/switch-application-v4.cc:362-389 | registers locally iff the chosen root is this switch; otherwise forwards the EID to the root |
| SwitchV4.SwitchApplication.RegistToRN | src/applications/model/switch-application-v4.cc:390-400 | the root registers the group everywhere and answers the probe |
| SwitchV4.SwitchApplication.Grafting | src/applications/model/switch-application-v4.cc:401-416 | data goes back to the grafting node, the multicast table gains the group, the probe is answered |
| SwitchV4.SwitchApplication.RegistToDestDR | src/applications/model/switch-application-v4.cc:417-437 | the group joins the multicast table and a graft request goes to the nearest node |
| SwitchV4.SwitchApplication.FrontEnd | src/applications/model/switch-application-v4.cc:272-454 | the table invariants hold after any packet; a packet the switch does not serve changes nothing |
| MulticastClient.CountFor | src/applications/model/multicast-client-application-v4.cc:179-185 | a reader sends one unit of 7000 per writer (when the 32-bit product does not wrap), a writer 7000, any other role 10 |
| MulticastClient.WriteEid | src/applications/model/multicast-client-application-v4.cc:221-227 | a writer's EID is twenty '1's except bytes 16-18; byte 18 is '1' raised by `n mod 100` without wrapping |
| MulticastClient.ReadEid | src/applications/model/multicast-client-application-v4.cc:243-248 | a reader's bytes 17 and 18 stay below '1'+70 and '1'+100 |
| MulticastClient.ReadGroup | src/applications/model/multicast-client-application-v4.cc:246-247 | the writer counter a read names is below 7000, with the read's units and its byte-cast hundreds modulo 70 |
| MulticastClient.ReadEidIsWriteEid | src/applications/model/multicast-client-application-v4.cc:221-248 | for every counter, a reader's EID is the EID writer `ReadWriter` registers under `ReadGroup(n)` |
| MulticastClient.ResolutionReplyHandle | src/applications/model/multicast-client-application-v4.cc:380-389 | the flag and count are bytes 20 and 21, and the port's low and high bytes are bytes 38 and 39 |
| MulticastClient.Ones | src/applications/model/multicast-client-application-v4.cc:221 | the EID template is twenty '1' bytes |
| MulticastClient.WriteEidInjective | src/applications/model/multicast-client-application-v4.cc:223-227 | below 25600 groups, distinct counters or writers never give the same EID |
| MulticastClient.ReadWriter | src/applications/model/multicast-client-application-v4.cc:248 | the writer a reader addresses is below the writer count |
| MulticastClient.ReadEidOffsets | src/applications/model/multicast-client-application-v4.cc:243-248 | a read EID differs from '1's only in bytes 16-18; bytes 18 and 17 do not wrap |
| MulticastClient.CounterBytes | src/applications/model/multicast-client-application-v4.cc:246-247 | below 25600, the read counter bytes equal the write counter bytes of `n mod 7000` |
| MulticastClient.ReadRequestsWrittenGroup | src/applications/model/multicast-client-application-v4.cc:223-248 | below 25600 requests and away from multiples of 7000, a reader asks for exactly the `n mod 7000`-th group of a registered writer |
| MulticastClient.ReadAtUnitBoundaryMissesWrites | src/applications/model/multicast-client-application-v4.cc:223-248 | at a multiple of 7000 the reader asks for a group no writer registers |
| MulticastClient.ClientReadsResolverPage | src/applications/model/multicast-client-application-v4.cc:380-389 | on a resolver page the client reads the page's finished flag, its count, its first address and that address's port bytes |
| MulticastClient.MulticastClientApplication.constructor | src/applications/model/multicast-client-application-v4.cc:108-117 | nothing sent, count 1 |
| MulticastClient.MulticastClientApplication.StartApplication | src/applications/model/multicast-client-application-v4.cc:179-202 | the count is writers·7000 (32-bit) for Read, 7000 for Write, 10 otherwise; the counter resets; Write is scheduled for Write and All, Read for Read and All, neither for any other role |
| MulticastClient.MulticastClientApplication.Write | src/applications/model/multicast-client-application-v4.cc:214-234 | while below the count: counter + 1, the next group registered with the switch, rescheduled; else nothing |
| MulticastClient.MulticastClientApplication.Read | src/applications/model/multicast-client-application-v4.cc:237-258 | while below the count: counter + 1, a join for the next group, rescheduled; else nothing |
| MulticastClient.MulticastClientApplication.LookUpNeighDelay | src/applications/model/multicast-client-application-v4.cc:434-444 | the stored delay, -1 for an unknown neighbour |
| MulticastClient.MulticastClientApplication.AddNeighDelay | src/applications/model/multicast-client-application-v4.cc:446-452 | stores only while the lookup is not positive (`IsNegative` includes zero), so a positive delay is never replaced; returns its argument |
| MulticastClient.MulticastClientApplication.NeigthInfoProtocolHandle | src/applications/model/multicast-client-application-v4.cc:328-354 | a probe is echoed to the port in address bytes 16-17; an answer records the delay when the stored one is absent or not positive |
| StorageClient.DataEid | src/applications/model/storage-client-application-v4.cc:162 | the data EID is twenty '3' bytes |
| StorageClient.ReplyRequest | src/applications/model/storage-client-application-v4.cc:299-314 | a request for the reply's EID, to the address at byte 21, exists iff the count byte is ≥ 1 |
| StorageClient.ReplyPort | src/applications/model/storage-client-application-v4.cc:306 | the port is little-endian from bytes 37-38 |
| StorageClient.ClientMisreadsPagedAnswer | src/applications/model/storage-client-application-v4.cc:299-314 | fed page k of a paginated resolver answer, the client requests iff k is the last page, from the address made of the count byte and the first 17 bytes of the page's first address |
| StorageClient.ClientFollowsLegacyAnswer | src/applications/model/storage-client-application-v4.cc:299-314 | fed a legacy resolver answer, the client requests the EID from the first registered address iff one is registered |
| StorageClient.StorageClientApplication.constructor | src/applications/model/storage-client-application-v4.cc:82-89 | nothing sent, counter 0 |
| StorageClient.StorageClientApplication.StartApplication | src/applications/model/storage-client-application-v4.cc:122-144 | `Write` is scheduled and the switch probed once |
| StorageClient.StorageClientApplication.Write | src/applications/model/storage-client-application-v4.cc:155-172 | the data EID is always announced; Read is scheduled and the counter raised iff below the count |
| StorageClient.StorageClientApplication.Read | src/applications/model/storage-client-application-v4.cc:175-189 | the resolver is always asked; Write is scheduled iff below the count |
| StorageClient.StorageClientApplication.ResolutionReplyHandle | src/applications/model/storage-client-application-v4.cc:299-314 | sends exactly the request `ReplyRequest` describes |
| StorageClient.StorageClientApplication.ResolutionProtocolHandle | src/applications/model/storage-client-application-v4.cc:275-286 | only `REPLY_EID_NA` has an effect |
| StorageClient.StorageClientApplication.LookUpNeighDelay | src/applications/model/storage-client-application-v4.cc:352-362 | the stored delay, -1 when absent |
| StorageClient.StorageClientApplication.AddNeighDelay | src/applications/model/storage-client-application-v4.cc:364-370 | stores only while the lookup is not positive (`IsNegative` includes zero), so a positive delay is never replaced; returns its argument |
| StorageClient.StorageClientApplication.NeigthInfoProtocolHandle | src/applications/model/storage-client-application-v4.cc:247-273 | the probe echo targets the port decoded from address bytes 16-17; an answer records the delay when the stored one is absent or not positive |

## Left out

- The `SeanetHeader` declaration the switch compiles against is not part of this model. The destination flag of the switch's two-argument sends (`IS_DST` here) and the source of its interface number rest on the choice stated under the modelling conventions.
- Sockets, `Bind`, the `RecvFrom` loops and `SendTo`: sends are packets appended to a trace.
- `Simulator::Schedule`/`Cancel` and `Simulator::Now()`. A client's scheduled `Write` or `Read` is a boolean result, and delays are supplied by the caller.
- The `SeqTsSizeHeader` timestamp arithmetic is left out for the same reason.
- `Ipv4Address::Deserialize`, `ConvertFrom`, `SetInterfaceNum`, `Address::CopyTo` and `CopyAllTo` are foreign to these files. Deserialisation is a `decode` parameter, and a locator is an (IP, interface) pair.
- Locator equality is structural and includes the interface number. The `Ipv4Address` comparison is not part of this model.
- `sgi::hash_map` iteration order is unspecified. It is a caller-given key sequence, assumed to list each key once.
- The `AferEnd` queue-polling loops, logging, trace sources, `PacketLossCounter` and `m_received` are left out.
- Leaked `new` buffers and the aliasing of one EID buffer between the unicast and multicast lists are left out. Lists hold EID values.
- The helper classes, scratch/multicast.cc, switch-application.cc and storage-client-application.cc are not part of this model.
- `SwitchReplyHandle` in both clients only logs and is not modelled.
- The switch's `StartApplication` socket and table setup is left out. Tables are passed to the constructor.
- The multicast client's `ResolutionProtocolHandle` only dispatches `REPLY_EID_NA` to a handler that reads and logs. The values read are `MulticastClient.ResolutionReplyHandle`.
- The multicast client's `NeighInfoDetec` is never called, so it is not modelled. The storage client's `NeighInfoDetec` is the probe its `StartApplication` sends.
- `StopApplication`, the `ReceiveCallback` dispatchers and the clients' `SendPacket` socket code are left out. A dispatched payload is a handler parameter.
- `DetecAllNeighborDelay` schedules each `NeighInfoDetec` probe 10 µs ahead; the model appends the probes to the trace at once, so their timing relative to other events is not captured. Its one-off trigger from `StartApplication` (only on an entry switch whose tree type is not SPT) is not modelled.
- Packet lengths: payloads are modelled at the receive buffer's full 255 bytes. Bytes past the received length are whatever the buffer held.
- Several requires clauses state buffer lengths that the receive buffers always meet. Examples are `|buffer| >= EIDSIZE` and a reply long enough for its count.
- The float return type of `GetSwitchSocre` is a natural, since it always holds a count.
- MulticastClient.MulticastClientApplication.Read: requires a non-zero writer count, because the C++ takes `% total_switch_num`, which is undefined for 0.
- SwitchV4.SwitchApplication.GetRootNode: requires that `order` lists exactly the delay-table keys, once each. This is how hash-map iteration behaves.
- SwitchV4.SwitchApplication.constructor: requires two distinct cast tables with duplicate-free lists and a well-formed resolution cache. `SetNeighInfoTable` stores whatever table pointers the simulation script passes and checks nothing; the script is not part of this model.
- SwitchV4.SwitchApplication.DetecAllNeighborDelay: requires that `order` lists exactly the multicast-table keys, once each.
- SwitchV4.SwitchApplication.FrontEnd: states only the invariant and the not-served case. The effect of each dispatched branch is the contract of the handler it calls.
- SeanetAddr.SeanetAddress.FromAddressAsWritten: the bytes an overrunning copy writes past `m_data` are not modelled; the method reports how many bytes the copy was asked for, and `AsWrittenOverrunsLongAddresses` shows the excess.
- NixHeader.SeanetHeaderNix.Serialize: requires `SetInterface` (or `Deserialize`) first, because the constructors leave `interface_num` uninitialised.
- The lookup2 hash is modelled over 32-bit integers, not bit-vectors. Xor and shifts are arithmetic on words.

## Findings

| source | as written | input that shows it | evidently intended | confidence | as-written member | corrected member |
|---|---|---|---|---|---|---|
| src/network/model/seanet-address.cc:58-61 | `memcpy(m_data, buffer+2, len)` copies as many bytes as `CopyAllTo` returned, which counts the two header bytes | an address with length byte 19 (21 wire bytes): 21 bytes are written into the 20-byte `m_data`, read from offsets 2-22 of a 22-byte buffer | copy the `m_len` data bytes that byte 1 announces | not executed | SeanetAddr.SeanetAddress.FromAddressAsWritten, SeanetAddr.AsWrittenOverrunsLongAddresses | SeanetAddr.SeanetAddress.FromAddress |
