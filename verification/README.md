# GLB director: a verified model

GLB is a load balancer without per-connection state. A tier of directors hashes each packet to a row of
a forwarding table, wraps it in a GUE packet addressed to the row's first host and puts the row's second
host into the hop list. A host that does not know the connection passes the packet on along the hop list:
the second chance. This project models that protocol and the code around it in Dafny and proves what the
design promises, on whole runs and, where the code works on bytes, on bytes.

`dafny verify dfyconfig.toml` checks everything. There is one module a file:

| file | part of the system |
|---|---|
| `Rendezvous.dfy` | ranking of hosts in a row, minimal disruption, the swap of a bad first host |
| `TableBuilder.dfy` | the loop that fills a table by sorting one array in place, and the reference rule |
| `HopChain.dfy` | where a packet stops along a hop list |
| `SecondChance.dfy` | the protocol as a state machine over directors, hosts and connections |
| `Rollout.dfy` | a host rolled out director by director, with old and new table in use together |
| `SipHash.dfy` | the reference loop and the unrolled form of SipHash-2-4 |
| `SipExample.dfy` | the SipHash paper's own example, round by round |
| `Checksum.dfy` | the Internet checksum and its incremental update |
| `PacketParsing.dfy` | what a director reads of a frame, and the bytes it hashes |
| `Encap.dfy` | hop lists, encapsulation, and the round trip through the proxy's parser |
| `Redirect.dfy` | the proxy on one packet: parse, decide, rewrite in place |
| `Verdict.dfy` | that decision again, read directly off the bytes |
| `ProxyChain.dfy` | a packet's whole journey from proxy to proxy, and its UDP checksum on the way |
| `ShortDatagram.dfy` | a packet whose checksum the first forward invalidates |
| `EndToEnd.dfy` | table, director and proxies composed: a frame routed by a table ends at the owner |
| `Ingress.dfy` | the same from the wire: classifier, table, director, proxies, owner |
| `Xdp.dfy` | the second director, in XDP, against the first |
| `XdpIngress.dfy` | the second director from the wire: bind map, table, proxies, owner; and what both directors send for one frame |
| `BindClassifier.dfy` | the rules that map packets to tables |
| `Reload.dfy` | hot reload: reference counts over all interleavings |
| `TxLoop.dfy` | the distributor loop: conservation and order of packets |
| `Dampener.dfy`, `TunnelCheck.dfy`, `Manager.dfy` | health checking |

The result everything leads to is `Ingress.OwnerAcceptsAfterEveryRun`: start with no connections and run any
sequence of opens, closes, health flips, drains, undrains, additions and removals; afterwards any segment of a
live connection, or packet-too-big message about it, that arrives at any director is led by the classifier to the
connection's table, routed by a table the builder made from that director's own view, encapsulated and passed from
proxy to proxy, and the host that owns the connection accepts it with the original packet intact. A host is removed
only when it holds no live connection. It is added only when every live connection sits on its row's first-ranked
host or the new host stays out of the row's pair; `SecondChance.AdditionEnabledExactly` shows that this guard is exact.
For messages the classifier must have no stray and no missed table, a condition `BindClassifier.ClassifiedAlikeExactly`
shows to be exact as well. `XdpIngress.OwnerAcceptsAfterEveryRun` is the same law at the XDP director, where it holds for
all messages.

## Assumptions

- Tables have at least two available backends with distinct IPv4 addresses, and no two of them score the same in a row.
- Only the owner of a connection knows it. What a host knows, established sockets and SYN cookies, is a parameter.
- All directors work with the same set of backends, except in `Rollout.dfy`; their views of state and health are
  independent.
- Hosts are little-endian. Hash words are handled through a record of word operations with two laws, which the
  64-bit words are shown to obey; everything that routes takes the keyed hash as a function.
- How many packets the NIC and KNI take, whether a message pool or ring is full, and which check replies come in
  which order are parameters or free choices of a run.

## Where code and comments disagree

The model follows the code in each of these.

- The rule for packet-too-big messages is meant for messages about packets of the bind's own flows. It does not look at
  the quoted packet's protocol, so a UDP bind also catches messages about TCP flows on its address and port, and a bind
  for ICMP may take a message for one of its own packets. `BindClassifier.OtherTableCatchesMessage` gives two binds and two
  frames that end in different tables.
- For ICMPv6 that rule also asks for code 0 (`src/glb-director/bind_classifier.c:93` and `:293`), while the director's parser
  (`src/glb-hashing/packet_parsing.h:268`) and the proxies (`src/glb-redirect/ipt_GLBREDIRECT.c:335`) take any code and section
  3.2 of RFC 4443 has receivers ignore it. A message with another code is caught by no rule
  (`BindClassifier.OtherCodeIsNotCaught`, `BindClassifier.NoTableCatchesMessage`). `BindClassifier.ClassifiedAlikeExactly` gives
  the exact condition, over both points, under which messages and segments are led to the same tables.
- A forward adjusts the UDP checksum for the change of next_hop whether or not the datagram reaches that far; the UDP length
  is never read. It keeps a used, valid checksum valid exactly when the UDP length is at least 15
  (`ProxyChain.ForwardKeepsChecksumExactly`); `ShortDatagram.ForwardBreaksShortDatagram` gives packets of UDP length 8 for which
  it does not. What the directors send is always long enough (`EndToEnd.SentIsSound`).
- The directors read the ports behind an IPv4 header of 20 bytes, the proxies behind the header's own length. For a segment
  with IPv4 options they agree on the flow exactly when the first options happen to equal the ports
  (`EndToEnd.DirectorReadsTupleExactly`, `EndToEnd.OptionsAreReadAsPorts`).
- The XDP director's loader counts ports in 16 bits, so a range that ends at 65535 never ends and the loader gives up at its
  limit of entries. It does not look at prefix lengths, and a reload leaves the entries of removed binds in place
  (`XdpIngress.LoadBinds`, `XdpIngress.NamesFlowExactly`, `XdpIngress.ResolveExactly`).
- `docs/development/glb-hashing.md:31` lets a new host join in state filling, which looks just like active, and relies on the
  second chance. That covers tables that change everywhere at once. While directors move to the new table one by one,
  connections the host takes through the new table are not delivered through the old (`Rollout.OpenedThroughNewExactly`); if
  it joins drained and the other hosts are active and healthy, every connection is (`Rollout.CalmRolloutIsRun`).
- The swap of a row's pair says it wants the second host to be up; it compares that host's state, not its health,
  with the value 1, which means active. An unhealthy but active second host is therefore promoted
  (`Rendezvous.UnhealthySecondIsPromoted`). The exact condition for a bad host to come first is `Rendezvous.BadFirstExactly`
  for a row and `Rendezvous.BadFirstSomewhereExactly` for a table.
- The XDP director folds its IP header checksum once, with a comment that argues from the largest possible sum.
  One fold is enough exactly when it leaves no carry (`Xdp.OnceFoldedExactly`, `Xdp.SentHeaderValidExactly`);
  `Xdp.OneFoldIsNotAlwaysEnough` gives an acknowledgement, a director and a row with ordinary addresses for which it is not.
- The context loaded at startup is stored in every worker with a single reference. It is never freed in use exactly when
  there is one worker (`Reload.StartupContextSafeExactly`).
- The dampener promises one report for each result; of a source closed before its first result it reports one
  unhealthy zero value.
- The XDP director's guards return all ones for an empty hash input, so the two directors agree on the hash exactly
  when some field is hashed, or by luck (`Xdp.GuardedHashAgrees`).

## Model

| member | source | states |
|---|---|---|
| `Rendezvous.PairUnique` | src/glb-director/cli/main.c:543-551 | without ties, the two lowest-scored hosts of a row are determined by the set of hosts alone |
| `Rendezvous.AdditionIsMinimal` | src/glb-director/cli/main.c:519-565 | adding a host keeps the old first host in the pair; the old second stays exactly when the new host stays out, and then the pair does not move |
| `Rendezvous.RemovalIsMinimal` | src/glb-director/cli/main.c:519-565 | removing a host keeps every surviving member of the pair, and a pair without that host does not move |
| `Rendezvous.ViewsAgreeOnMembers` | src/glb-director/cli/main.c:546-565 | whatever two directors believe about state and health, their rows hold the same two hosts |
| `Rendezvous.SwappedExactly` | src/glb-director/cli/main.c:552-565 | a pair is exchanged exactly when its first host is draining, inactive or unhealthy and its second is in state active |
| `Rendezvous.BadFirstExactly` | src/glb-director/cli/main.c:552-565 | exactly when a bad host is first in a row: in terms of the ranked pair and the states compared |
| `Rendezvous.BadFirstNowhere` | src/glb-director/cli/main.c:546-565 | while every other host is in state active, a bad host is first in no row if it is draining or otherwise not in state active, or if the others are healthy |
| `Rendezvous.BadFirstSomewhereExactly` | src/glb-director/cli/main.c:546-565 | over a table, with every other host in state active, a bad host is first in some row exactly when it is itself in state active and second in a row behind an unhealthy host |
| `Rendezvous.UnhealthySecondIsPromoted` | src/glb-director/cli/main.c:557-561 | for every score and set of hosts that are all in state active and unhealthy, every row puts its second-ranked host first |
| `TableBuilder.SortByHash` | src/glb-director/cli/main.c:124-133 | in place: the array ends sorted by hash and is a permutation of what it was |
| `TableBuilder.CollectAvailable` | src/glb-director/cli/main.c:326-336 | every backend that is not inactive is collected exactly once |
| `TableBuilder.AvailableStates` | src/glb-director/cli/main.c:326-336 | a backend takes part exactly while it is filling, active or draining |
| `TableBuilder.BuildRow` | src/glb-director/cli/main.c:519-565 | whatever order the array is in, the entry is one a fresh ranking allows, and the array still holds each available backend once |
| `TableBuilder.BuildRows` | src/glb-director/cli/main.c:502-568 | every row built on top of the order the row before left behind is one a fresh ranking allows |
| `TableBuilder.BuildTable` | src/glb-director/cli/main.c:501-568 | every row of the finished table is one a fresh ranking allows |
| `TableBuilder.RowIsRankedPair` | src/glb-director/cli/main.c:543-565 | with distinct addresses and no ties, an entry the builder writes is the row's ranked pair, swapped as the view of state and health demands |
| `TableBuilder.RankedHostsSorts` | src/glb-director/tests/rendezvous_table.py:28-35 | the reference rule returns the hosts it was given, in ascending order of score |
| `TableBuilder.ReferenceRanksPair` | src/glb-director/tests/rendezvous_table.py:28-35 | the first two hosts of the reference ranking are the row's pair |
| `TableBuilder.BuilderMatchesReference` | src/glb-director/cli/main.c:501-568 | a row holds the two hosts the reference rule puts first, in that order unless the first is bad and the second active |
| `TableBuilder.ScoresAgree` | src/glb-director/cli/main.c:505-541 | the builder's byte-swapped hash is the number the reference rule's hexadecimal digest denotes, for every hash, row and address |
| `TableBuilder.ScoreMeaning` | src/glb-director/cli/main.c:505-541 | the score is the hash of twelve bytes, the digest of the row's four big-endian bytes and then the address, compared by the bytes of its digest, first byte first |
| `TableBuilder.RowBytesMeaning` | src/glb-director/tests/rendezvous_table.py:25-25 | a row below 2^32 is hashed as its four bytes, most significant first |
| `TableBuilder.RowBytesInjective` | src/glb-director/tests/rendezvous_table.py:25-25 | so no two rows share them |
| `TableBuilder.DigestReadsBack` | src/glb-director/tests/rendezvous_table.py:26-26 | a digest read the way the hash reads its input is the word it was made of: low byte first |
| `TableBuilder.KeyedScoresAgree` | src/glb-director/tests/rendezvous_table.py:24-33 | with SipHash-2-4 under the table's seed, builder and reference rank by the same scores |
| `TableBuilder.KeyedBuilderMatchesReference` | src/glb-director/tests/rendezvous_table.py:24-33 | a row built with SipHash-2-4 under a table's seed holds the first two hosts of the reference ranking by hexadecimal digest under the same seed, swapped exactly when the first is bad and the second active |
| `HopChain.DeliveredExactly` | src/glb-redirect/ipt_GLBREDIRECT.c:202-248 | if only the owner knows a flow, the packet reaches it exactly when some occurrence of the owner has no repeated neighbours before it, and then the owner accepts |
| `HopChain.PairDelivers` | src/glb-redirect/ipt_GLBREDIRECT.c:202-248 | with two distinct hops the owner gets the packet exactly when it is one of them |
| `HopChain.FourHopsDeliver` | src/glb-director/glb_encap.c:93-106 | new pair, then old pair: the new hosts and the old first are always reached; a host that is only the old second exactly when new second and old first differ |
| `SecondChance.StepKeepsOwners` | src/glb-director/cli/main.c:501-565 | every enabled event keeps every live connection on one of its row's two hosts |
| `SecondChance.RunKeepsOwners` | docs/development/glb-hashing.md:15-39 | so does every run |
| `SecondChance.RunMeaning` | docs/development/glb-hashing.md:15-39 | after every run, from its events alone: a flow is open exactly if it was opened after it was last closed, a host is there exactly if it was added after it was last removed, and a director's view of it is the last status it was given |
| `SecondChance.OwnerStays` | docs/development/glb-hashing.md:15-39 | a connection that is not closed keeps its owner through every run |
| `SecondChance.DeliveredToMembers` | src/glb-redirect/ipt_GLBREDIRECT.c:202-274 | through any director, a flow's packets reach the owner exactly when it is one of the row's two hosts |
| `SecondChance.NoConnectionIsLost` | src/glb-redirect/ipt_GLBREDIRECT.c:202-274 | after every run from no connections, every non-SYN packet of every live connection, through any director, is accepted by its owner |
| `SecondChance.AdditionBreaksExactly` | docs/development/glb-hashing.md:39 | adding a host keeps a connection deliverable exactly when it sits on the first-ranked host or the new host stays out of the pair |
| `SecondChance.AdditionEnabledExactly` | docs/development/glb-hashing.md:15-39 | an addition keeps every live connection on its row's pair exactly when the protocol enables it |
| `Rollout.CommonExactly` | src/glb-director/cli/main.c:519-565 | a host is in a flow's row of both tables exactly when it is the old first, or the old second and the new host stays out |
| `Rollout.OpenedThroughOldExactly` | docs/development/glb-hashing.md:31-39 | a connection opened through the old table is delivered through the new one exactly when the old row was not swapped or the new host stays out of it |
| `Rollout.OpenedThroughNewExactly` | docs/development/glb-hashing.md:31-39 | a connection opened through the new table is delivered through the old one exactly when it did not land on the new host |
| `Rollout.NoConnectionIsLost` | docs/development/glb-hashing.md:15-39 | at every point of every rollout whose opens land in both rows, packets of every live connection are delivered through every director |
| `Rollout.RunMeaning` | docs/development/glb-hashing.md:15-39 | after every rollout, from its events alone: which flows are open, which directors have the new table, and that exactly those know the new host |
| `Rollout.RolloutEnds` | docs/development/glb-hashing.md:15-39 | when the last director has moved, the protocol goes on with the new hosts and every owner in its row |
| `Rollout.CalmOpensOnOldFirst` | src/glb-director/cli/main.c:552-565 | with the old hosts active and healthy and the new one drained, every open lands on the old row's first host, through either table |
| `Rollout.CalmRolloutIsRun` | docs/development/glb-hashing.md:15-39 | so such a rollout holds back no open and is one of those above |
| `SipHash.Word64IsLawful` | src/glb-hashing/glb_siphash24.h:141-141 | 64-bit words obey the laws about or-ing bytes into a word that the equivalence needs |
| `SipHash.CompressStep` | src/glb-hashing/glb_siphash24.h:148-152 | the statements of two SIPROUNDs between the two xors absorb one word as the paper defines it; both forms call it |
| `SipHash.Reference` | src/glb-director/siphash24.c:80-174 | the loop over 8-byte blocks with the fall-through switch computes SipHash-2-4 as defined on padded words |
| `SipHash.Unrolled` | src/glb-hashing/glb_siphash24.h:98-217 | the five-pass form refuses inputs of 40 bytes or more and otherwise, on a zero-padded buffer, computes the same hash as the reference, for every key |
| `SipHash.FivePasses` | src/glb-hashing/glb_siphash24.h:148-184 | one pass and four guarded ones absorb exactly the given rounds |
| `SipHash.BothForms` | src/glb-hashing/glb_siphash24.h:95-217 | on 64-bit words, for every key and input, the reference returns SipHash-2-4 as defined and the unrolled form the same bits, or refuses an input of 40 bytes or more; the next two rows fix those bits |
| `SipExample.RotatesLeft` | src/glb-hashing/glb_siphash24.h:33-33 | rotation is to the left, for every word and the five amounts in use |
| `SipExample.PaperExample` | src/glb-director/siphash24.c:80-174 | the hash of the bytes 0 to 14 under the key 0 to 15 is 0xa129ca6149be45e5, the value in appendix A of the SipHash paper |
| `SipExample.BothReturnPaperValue` | src/glb-hashing/glb_siphash24.h:95-217 | both forms return it |
| `SipHash.RoundWord` | src/glb-hashing/glb_siphash24.h:134-141 | each 8-byte chunk of a zero-padded buffer, the last with the length or-ed in, is the word the padding rule gives |
| `Checksum.ByteOrderIndependence` | src/glb-redirect/ipt_GLBREDIRECT.c:259-267 | a sum is valid in host byte order exactly when it is in network byte order (section 2 (B) of RFC 1071) |
| `Checksum.RfcExample` | src/glb-redirect/ipt_GLBREDIRECT.c:259-267 | the sum of the example in section 3 of RFC 1071, before and after folding |
| `Checksum.Replace2Meaning` | src/glb-redirect/ipt_GLBREDIRECT.c:261-261 | replacing a 16-bit value by equation 3 of RFC 1624 changes the field by old minus new modulo 65535 |
| `Checksum.Replace4Meaning` | src/glb-redirect/ipt_GLBREDIRECT.c:266-266 | the same for a 32-bit value |
| `Redirect.ParseOuter` | src/glb-redirect/ipt_GLBREDIRECT.c:526-564 | what is found lies inside the packet: offsets, hop count and next hop agree with the bytes there |
| `Redirect.Process` | src/glb-redirect/ipt_GLBREDIRECT.c:500-581 | in place: the verdict is the one decided on the packet, which `Verdict.VerdictOnBytes` reads off its bytes, and the buffer is the forwarded packet if it is passed on and untouched otherwise |
| `Verdict.VerdictOnBytes` | src/glb-redirect/ipt_GLBREDIRECT.c:202-581 | for every packet and host, the decision in terms of the packet's own bytes: which are malformed, stateless, for a SYN, for a known flow, at the last hop or looping, and which are passed on and to whom |
| `Verdict.StatelessStays` | src/glb-redirect/ipt_GLBREDIRECT.c:281-482 | a packet is kept as stateless exactly when it carries UDP or a complete ICMP header about no flow, in either family, whatever the host knows and whatever hops are left; it travels no further |
| `Verdict.FlagReadsBit` | src/glb-redirect/ipt_GLBREDIRECT.c:202-230 | the tests for FIN, SYN, RST and ACK read bits 0, 1, 2 and 4 of the flags |
| `Redirect.Rewrite` | src/glb-redirect/ipt_GLBREDIRECT.c:257-272 | in place: exactly checksum, next hop and outer addresses change |
| `Redirect.AdjustChecksum` | src/glb-redirect/ipt_GLBREDIRECT.c:259-267 | in place: a used checksum becomes the updated one, an unused one stays zero, nothing else changes |
| `Redirect.MoveAddresses` | src/glb-redirect/ipt_GLBREDIRECT.c:269-272 | in place: next hop goes up by one, the old destination becomes the source, the next hop's address the destination |
| `ProxyChain.ForwardStep` | src/glb-redirect/ipt_GLBREDIRECT.c:252-274 | a forwarded packet still parses, with next hop one higher, this host as source, the next as destination, and hop list and inner packet unchanged |
| `ProxyChain.ForwardChangesOnly` | src/glb-redirect/ipt_GLBREDIRECT.c:257-272 | no byte changes but the outer addresses, next_hop and the UDP checksum |
| `ProxyChain.DecisionOnLeg` | src/glb-redirect/ipt_GLBREDIRECT.c:212-248 | the decision on a non-SYN segment in terms of what the packet carries |
| `ProxyChain.JourneyFollowsHopList` | src/glb-redirect/ipt_GLBREDIRECT.c:202-274 | a non-SYN segment visits hosts exactly in hop-list order and stops at the first that knows the flow, is last or is followed by itself; each host sees the one before as source, and the inner packet arrives unchanged |
| `ProxyChain.MovedAddressesKeepValidity` | src/glb-redirect/ipt_GLBREDIRECT.c:263-266 | why taking the old source out and the new destination in is enough: the checksum stays valid exactly when the datagram's own change is fully accounted for |
| `ProxyChain.SegmentSum` | src/glb-redirect/ipt_GLBREDIRECT.c:261-269 | raising next_hop moves the sum of a datagram that reaches as far by exactly one although its 16-bit word also holds hop_count, and does not move a shorter one's |
| `ProxyChain.ForwardKeepsChecksumExactly` | src/glb-redirect/ipt_GLBREDIRECT.c:257-272 | for every length from 8 that fits the packet, one forward keeps a used, valid outer UDP checksum valid if and only if the length is at least 15 |
| `ProxyChain.ForwardSoundExactly` | src/glb-redirect/ipt_GLBREDIRECT.c:257-272 | a packet with a valid or unused checksum (RFC 768) is forwarded as one if and only if the checksum is unused afterwards or the UDP length is at least 15 |
| `ProxyChain.JourneyKeepsChecksum` | src/glb-redirect/ipt_GLBREDIRECT.c:257-274 | after any number of forwards, whatever the hosts know, the checksum is valid or unused, if at the start it is unused or the UDP length is at least 15 |
| `ProxyChain.JourneyKeepsChecksumExactly` | src/glb-redirect/ipt_GLBREDIRECT.c:257-274 | and only then, but for packets that are not forwarded or whose checksum the first forward makes zero |
| `ShortDatagram.ForwardBreaksShortDatagram` | src/glb-redirect/ipt_GLBREDIRECT.c:257-272 | packets of UDP length 8, whatever they carry, whose valid checksum a forward invalidates |
| `ShortDatagram.HostForwardsShortDatagram` | src/glb-redirect/ipt_GLBREDIRECT.c:500-581 | one of them, with an ordinary acknowledgement inside, is forwarded by a host that knows no connection |
| `PacketParsing.RouteContext.GetHeader` | src/glb-hashing/packet_parsing.h:126-153 | a header is available exactly when it lies in the frame and, copying, still fits the linearisation space |
| `PacketParsing.RouteContext.Parse` | src/glb-hashing/packet_parsing.h:348-379 | for both directors: succeeds exactly on frames whose fields can be extracted, never for want of linearisation space, and leaves those fields |
| `PacketParsing.FillHashBuffer` | src/glb-hashing/packet_parsing.h:399-452 | under every choice of fields the buffer is 40 bytes, holds the chosen fields in order, at most 36 bytes of them, and is zero behind them |
| `PacketParsing.HashInputLayout` | src/glb-hashing/packet_parsing.h:399-452 | the hash input holds exactly the chosen fields: source address, destination address, source port, destination port |
| `PacketParsing.LengthIsHeaders` | src/glb-hashing/packet_parsing.h:164-255 | the length carried along is the IP header's own: the total length, or payload and header together in 16 bits |
| `PacketParsing.EchoFields` | src/glb-hashing/packet_parsing.h:205-320 | of an echo request the director reads family, addresses and protocol, no ports, and a hint that is the packet identifier or, for IPv6, the low half of the flow label |
| `PacketParsing.ComputeHash` | src/glb-hashing/packet_parsing.h:399-462 | every buffer built meets the unrolled hash's precondition, and the result is SipHash of the chosen fields |
| `PacketParsing.TooBigReadsAsFlow` | src/glb-hashing/packet_parsing.h:158-343 | a message quoting a server-to-client packet yields the same fields and hash input as the flow's own segments, up to the total length, under every choice of hash fields: client as source, service as destination, the flow's family and protocol, and the client's port as hint |
| `Encap.HopBuffer.AddRoute` | src/glb-director/glb_encap.c:49-76 | in place: two more hops, the primary and then the secondary backend of the row the hash selects, or an error and no change when there is no room; the first route's hash is kept |
| `Encap.HopBuffer.Calculate` | src/glb-director/glb_encap.c:78-109 | with and without old hash fields there is always room, and the hop list is the new pair followed by the old one; `EndToEnd.HopListIsProtocolRows` says which hosts and in which order |
| `Encap.RowIsHashModulo` | src/glb-director/glb_encap.c:54-55 | the row is the hash modulo 65536 |
| `Encap.PortIsMixedHash` | src/glb-director/glb_encap.c:163-163 | the outer source port has bit 15 set and the low 15 bits of the hash mixed with the hint |
| `Encap.Encapsulate` | src/glb-director/glb_encap.c:115-183 | in place: exactly the room in front of the inner packet is filled with the four headers |
| `Encap.RoundTrip` | src/glb-director/glb_encap.c:115-183 | for 1 to 4 hops the proxy's parser finds the first hop as destination, the others as hop list, next hop 0, and the inner packet untouched |
| `Encap.LengthsConsistent` | src/glb-director/glb_encap.c:138-169 | outer IP and UDP lengths tell the truth exactly when the packet fits 16 bits; the UDP ports are as given |
| `EndToEnd.FilledChecksumIsValid` | src/glb-director/glb_encap_dpdk.c:154-160 | the checksum the director fills in is valid over pseudo header and datagram |
| `EndToEnd.WireIsLaidOut` | src/glb-director/glb_encap.c:115-183 | whatever IP header checksum it is sent with, an encapsulated packet has the layout the next row is about |
| `EndToEnd.EncapsulateFrame` | src/glb-director/glb_encap_dpdk.c:56-109 | the DPDK director on one frame: encapsulated exactly when it can be parsed, and then the bytes the rows below are about, up to the checksums, behind an Ethernet header to the gateway |
| `EndToEnd.SentHeader` | src/glb-director/glb_encap.c:125-169 | whatever its checksums, every packet sent has this director as source, the first hop as destination, the given port as source port and 19523 as destination port, and outer lengths that cover GUE header, hops and inner packet |
| `EndToEnd.SentPort` | src/glb-director/glb_encap.c:163-163 | the outer source port of every packet sent is made of the flow's hash under the fields in use, not the old ones, and of its hint |
| `EndToEnd.SentGueHeader` | src/glb-director/glb_encap.c:171-183 | every packet sent has a GUE header of version 0 with the length of the hop list, the inner protocol, next_hop 0 and the hops behind the first in order |
| `EndToEnd.OuterLengthsTrue` | src/glb-director/glb_encap.c:138-169 | for a frame that is as long as it says and fits with the new headers, the outer IP and UDP lengths are those of the packet sent |
| `EndToEnd.SentIsSound` | src/glb-director/glb_encap_dpdk.c:138-170 | every packet of that layout that fits 16 bits, with its UDP checksum filled in, reaches every host on its journey with a valid checksum or none, whatever the hosts know |
| `EndToEnd.DirectorReadsTupleExactly` | src/glb-hashing/packet_parsing.h:216-237 | for every IPv4 TCP frame, options or not, director and proxies read the same flow if and only if the four bytes behind the first 20 of the header equal the ports |
| `EndToEnd.OptionsAreReadAsPorts` | src/glb-redirect/ipt_GLBREDIRECT.c:421-421 | a segment with options for which they do not |
| `EndToEnd.ProxiesLookUpFlow` | src/glb-redirect/ipt_GLBREDIRECT.c:281-482 | for segments and for messages about them, IPv4 and IPv6, the proxies look up the connection's own tuple |
| `EndToEnd.TooBigRoutedAlike` | src/glb-hashing/packet_parsing.h:158-462 | every table gives a packet-too-big message the same hash, hop list and outer source port as the flow's segments, under every choice of hash fields |
| `EndToEnd.FrameArrives` | src/glb-director/glb_encap.c:78-183 | from frame to last proxy: the journey ends where the hop list says, original packet intact, and is accepted as known exactly when the hop list delivers it |
| `EndToEnd.SynIsTakenByFirstHop` | src/glb-redirect/ipt_GLBREDIRECT.c:202-210 | a SYN is addressed to the first hop of the routing and taken there, whatever that host knows |
| `EndToEnd.BuildAndLoad` | src/glb-director/cli/main.c:501-568 | for every list of backends with two available ones the builder yields a table of the kind the result below is about |
| `EndToEnd.BuiltRowIsProtocolRow` | src/glb-director/cli/main.c:543-565 | a row of a built table is the row of the protocol under the view the table was built from |
| `EndToEnd.RouteIsProtocolRow` | src/glb-director/glb_encap.c:49-76 | a director routes a flow to the row's two hosts in the order of the protocol under its own view |
| `EndToEnd.HopListIsProtocolRows` | src/glb-director/glb_encap.c:78-109 | a hop list is the protocol row under the fields in use, followed, while they change, by the protocol row under the old fields, each in its own order |
| `EndToEnd.SynOpensOnProtocolHost` | src/glb-director/glb_encap.c:71-72 | the open step of the protocol on bytes: what a director sends for a SYN is addressed to the first host of the flow's row under that director's view, and taken there |
| `EndToEnd.OwnerAcceptsFromTable` | src/glb-director/glb_encap.c:49-183 | after every run of the protocol, whatever belongs to a live connection, routed by any director's table, ends at its owner and is accepted there, original packet intact |
| `Ingress.FrameLedTo` | src/glb-director/bind_classifier.c:561-640 | whichever matching rule is picked, a frame of the connection is led to the one table with a bind for it, and some rule does match |
| `Ingress.TooBigFollowsFlow` | src/glb-hashing/packet_parsing.h:158-462 | a packet-too-big message is led to the same tables as the flow's segments if and only if there is no stray and no missed table; every table routes both alike, and the proxies look up the same tuple |
| `Ingress.OwnerAcceptsAfterEveryRun` | src/glb-director/glb_encap_dpdk.c:56-109 | after every run of the protocol, whatever comes in for a live connection, at any director, is led to its table and ends at its owner, which accepts it with the original packet intact |
| `EndToEnd.HashFieldChangeDelivers` | src/glb-director/glb_encap.c:93-106 | on bytes, while hash fields change: new hosts and old first accept; a host that is only the old second exactly when new second and old first differ |
| `Xdp.GuardedHashAgrees` | src/glb-hashing/packet_parsing.h:421-457 | the eBPF guards leave the hash alone exactly when some field is hashed, or when the hash of nothing happens to be all ones |
| `Xdp.NoFieldMeansLastRow` | src/glb-hashing/packet_parsing.h:421-457 | with no field set all packets go to row 65535 |
| `Xdp.FlattenTable` | src/glb-director-xdp/main.go:328-336 | the loop resolves both indices of every row, and of nothing else |
| `Xdp.Route` | src/glb-director-xdp/bpf/glb_encap.c:331-381 | over the flattened rows the hop list is that of the original table's row for the guarded hash, and of a second row if any alternate field is set; no row is ever missing. `XdpIngress.SynOpensOnProtocolHost` says which host comes first |
| `Xdp.RoutesAgree` | src/glb-director-xdp/bpf/glb_encap.c:331-381 | with at least one hash field set, hop list and hash are those of the DPDK director, with and without alternate fields |
| `Xdp.OnceFoldedExactly` | src/glb-director-xdp/bpf/glb_encap.c:113-128 | one fold agrees with RFC 1071 exactly when it leaves no carry, and is one too large otherwise |
| `Xdp.SentHeaderValidExactly` | src/glb-director-xdp/bpf/glb_encap.c:113-193 | for every packet encapsulated, the IP header sent is valid exactly when one fold leaves no carry |
| `Xdp.OneFoldIsNotAlwaysEnough` | src/glb-director-xdp/bpf/glb_encap.c:122-127 | an acknowledgement sent to a row of two hosts for which it is not, whatever the frame hashes to |
| `Xdp.SendExample` | src/glb-director-xdp/bpf/glb_encap.c:135-193 | the same through the encapsulating code: the buffer ends with an invalid header |
| `Xdp.CopyHops` | src/glb-director-xdp/bpf/glb_encap.c:227-242 | the three guarded copies write all hops behind the first and no byte more |
| `Xdp.FillIp` | src/glb-director-xdp/bpf/glb_encap.c:176-193 | in place, field by field: exactly the 20 bytes of the outer IP header, checksum over what was just written |
| `Xdp.FillUdp` | src/glb-director-xdp/bpf/glb_encap.c:205-212 | in place, field by field: exactly the UDP header the DPDK director starts from, checksum unused |
| `Xdp.FillGue` | src/glb-director-xdp/bpf/glb_encap.c:220-226 | in place, field by field: exactly the fixed part of the GUE header |
| `Xdp.Encapsulate` | src/glb-director-xdp/bpf/glb_encap.c:135-249 | in place: dropped exactly when gateway or source address is missing, and otherwise the bytes the DPDK director writes before it fills in checksums, with the IP header checksum filled in; nothing behind them changes |
| `XdpIngress.AddPorts` | src/glb-director-xdp/main.go:354-368 | the 16-bit loop over a bind's ports ends exactly when the range does not end at 65535 and the entries stay within the limit, and then exactly those ports lead to the table |
| `XdpIngress.LoadBinds` | src/glb-director-xdp/main.go:313-381 | a load succeeds exactly when every such loop ends and all entries fit the limit; every key then leads to the last table that names it or else where it led before, and the map grows by no more than the entries |
| `XdpIngress.ResolveExactly` | src/glb-director-xdp/main.go:351-380 | the last table that names a key wins, and a key no table names keeps what an earlier load left there |
| `XdpIngress.NamesFlowExactly` | src/glb-director-xdp/main.go:361-361 | a bind names a flow's key exactly when it would catch the flow's segments in the DPDK director and its address is the flow's |
| `XdpIngress.EchoNamedExactly` | src/glb-director-xdp/main.go:370-378 | an echo request is looked up by a key that exactly the binds for its very address name |
| `XdpIngress.SameKey` | src/glb-director-xdp/bpf/glb_encap.c:281-294 | segments of a flow and messages about it, whatever their code and destination, are looked up by the same key |
| `XdpIngress.Process` | src/glb-director-xdp/bpf/glb_encap.c:251-399 | a frame is passed on exactly when it is not understood or no bind matches, dropped exactly when there is no room, gateway or source address, and otherwise sent as the table it is looked up to says |
| `XdpIngress.XdpSendsAlike` | src/glb-director-xdp/bpf/glb_encap.c:251-399 | from the outer IP header on, what is sent is what the DPDK director sends for the frame with other checksums |
| `XdpIngress.DirectorsSendAlike` | src/glb-director/glb_encap_dpdk.c:138-170 | for every frame, both directors send the same bytes from the outer IP header on, but for the IP checksum and the UDP checksum, which one fills in and the other leaves zero |
| `XdpIngress.TooBigFollowsFlow` | src/glb-hashing/packet_parsing.h:158-462 | at the XDP director a packet-too-big message is always looked up to the table of the flow's segments, routed alike by every table, and looked up by the proxies under the same tuple |
| `XdpIngress.SynOpensOnProtocolHost` | src/glb-director-xdp/bpf/glb_encap.c:331-381 | what the XDP director sends for a SYN is addressed to the first host of the flow's row under its view, and taken there |
| `XdpIngress.OwnerAcceptsAfterEveryRun` | src/glb-director-xdp/bpf/glb_encap.c:251-399 | after every run of the protocol, whatever comes in for a live connection at the XDP director is looked up to its table and ends at its owner, which accepts it with the original packet intact |
| `BindClassifier.WordsMatchExactly` | src/glb-director/bind_classifier.c:135-151 | for every length from 0 to 128, matching four 32-bit words by the lengths computed is matching one 128-bit prefix |
| `BindClassifier.PrefixIsCidr` | src/glb-director/bind_classifier.c:135-151 | two addresses agree in a prefix exactly when they are the same number once the other bits are shifted out |
| `BindClassifier.SegmentMatchesExactly` | src/glb-director/bind_classifier.c:155-224 | a flow's segments match a bind's rule exactly when protocol, address prefix and port say so |
| `BindClassifier.MessageMatchesExactly` | src/glb-director/bind_classifier.c:232-309 | a message about a flow matches a bind's fragmentation rule exactly when address prefix and port cover the flow, the prefix covers the message's own destination, and an ICMPv6 message has code 0; protocols play no part |
| `BindClassifier.TooBigMatchesSameBind` | src/glb-director/bind_classifier.c:155-309 | a bind that catches a flow's segments catches a message about it exactly when destination and code are as above; one that catches the message catches the segments exactly when it is of the flow's own protocol |
| `BindClassifier.EchoMatchesExactly` | src/glb-director/bind_classifier.c:311-387 | a bind's echo rule matches exactly the echo requests to its addresses |
| `BindClassifier.EchoTables` | src/glb-director/bind_classifier.c:389-491 | an echo request is led to exactly the tables with a bind for its address |
| `BindClassifier.CaughtByExactly` | src/glb-director/bind_classifier.c:389-491 | the finished rules lead a packet to exactly the tables with a bind one of whose rules matches it |
| `BindClassifier.ClassifiedAlikeExactly` | src/glb-director/bind_classifier.c:155-491 | over all rules of all binds, messages and segments are led to the same tables if and only if no table without a bind for the flow takes the message, by a bind of another protocol or for an ICMP packet of its own, and every table with one takes it, by its code and destination or by an ICMP bind |
| `BindClassifier.ClassifiedAlikeByBinds` | src/glb-director/bind_classifier.c:155-491 | without ICMP binds, for a message sent to the address it quotes: with code 0 no table may be stray, with another code no table may have a bind for the flow |
| `BindClassifier.OtherCodeIsNotCaught` | src/glb-director/bind_classifier.c:293-293 | without ICMP binds an ICMPv6 message with another code is led to no table |
| `BindClassifier.NoTableCatchesMessage` | src/glb-director/bind_classifier.c:293-293 | one table, one bind, two frames: the segment is led to the table, the message with code 1 nowhere, although no table is stray |
| `BindClassifier.OtherTableCatchesMessage` | src/glb-director/bind_classifier.c:232-309 | two binds and two frames: segments go to table 0 alone, the message is also caught by table 1 |
| `BindClassifier.RuleCount` | src/glb-director/bind_classifier.c:389-430 | over both families there are exactly two or three rules a bind |
| `BindClassifier.CreateRules` | src/glb-director/bind_classifier.c:408-491 | arrays with that many slots are never overrun and hold exactly the rules of all binds, family by family and in order |
| `Reload.StepMovesReferences` | src/glb-director/glb_control_loop.c:83-115 | each step moves references between control loop, rings and workers, and accounts for those left behind; to whom they go is said by `Reload.WorkerMissesExactly` |
| `Reload.StepKeepsCount` | src/glb-director/glb_fwd_config.c:147-185 | no step of any thread makes a count differ from the references held and leaked |
| `Reload.CountIsExact` | src/glb-director/glb_processor_loop.c:63-88 | in every interleaving a reload-created context's count is its holders plus its leaks; it is freed exactly when none is left, so never while used or queued |
| `Reload.StartupContextFreedInUse` | src/glb-director/main.c:335-335 | with two workers or more there is a run that frees the startup context while a worker reads it |
| `Reload.StartupContextSafeExactly` | src/glb-director/main.c:293-335 | the startup context is never freed in use exactly when there is one worker |
| `Reload.StepMovesChain` | src/glb-director/glb_processor_loop.c:63-88 | a step leaves the contexts a worker will use as they are, appends the one being sent, or drops the one released |
| `Reload.NoWorkerGoesBack` | src/glb-director/glb_processor_loop.c:63-88 | from any reachable state on, no worker ever moves to an older context |
| `Reload.WorkerMissesExactly` | src/glb-director/glb_control_loop.c:83-115 | in every interleaving, with any failures, each reload creates one context, and a worker uses the startup context and then, in order, exactly those whose turn for it has come and whose message did not fail for it |
| `Reload.ReloadReachesEveryWorker` | src/glb-director/glb_control_loop.c:83-115 | without failures, whenever the control loop is idle the newest context is the last in every worker's chain |
| `Reload.WorkerCatchesUp` | src/glb-director/glb_processor_loop.c:63-88 | a worker left to itself comes to use the last context sent to it and has emptied its ring |
| `Reload.EveryWorkerCanUseNewest` | src/glb-director/glb_processor_loop.c:63-88 | so after any number of reloads without failures every worker can come to use the newest context |
| `TxLoop.TagsReadBack` | src/glb-director/glb_processor_loop.c:53-56 | tags are read back as written and never name a path out of range |
| `TxLoop.ReceiveOnFlows` | src/glb-director/glb_processor_loop.c:103-139 | all bursts one behind the other in path order, each packet tagged with its path, at most 32 a path; a burst that is too large yields nothing |
| `TxLoop.WorkOn` | src/glb-director/glb_processor_loop.c:319-389 | in place: the tag stays, or becomes KNI or drop, and stays a valid tag |
| `TxLoop.Distributor.Flush` | src/glb-director/glb_processor_loop.c:147-174 | the NIC is handed the first packets of the buffer, as many as it takes, and exactly those are logged as transmitted; the rest is freed, and the buffer is empty |
| `TxLoop.Distributor.Queue` | src/glb-director/glb_processor_loop.c:250-267 | a packet goes to the end of its path's buffer, which never exceeds 32 entries and is flushed when full |
| `TxLoop.Distributor.Round` | src/glb-director/glb_processor_loop.c:224-274 | every returned packet ends exactly once and rightly, packets of one path keep their order, all buffers are empty again; on each path the NIC is offered the path's packets in bursts of 32 but for the last, transmitted is the prefix it takes of every burst and freed the rest; the n-th packet for KNI is handed over exactly if KNI takes it |
| `TxLoop.EmptyBuffersConserve` | src/glb-director/glb_processor_loop.c:270-274 | once the buffers are empty, outcomes and returned packets are the same multiset and, route by route, the same sequence |
| `TxLoop.EmptyBuffersSplit` | src/glb-director/util.h:65-70 | once the buffers are empty, the bursts offered on a path are its packets in order, transmitted are the prefixes the NIC took of them and freed the rests |
| `TxLoop.NicOwnsWhatItTook` | src/glb-director/glb_processor_loop.c:147-174 | over any number of flushes, what is logged as transmitted on a path is what the NIC took of each burst, and what is logged as freed is what it left |
| `TxLoop.NoPacketTwice` | src/glb-director/util.h:65-70 | a packet offered once and taken by the NIC is not freed |
| `Dampener.ReportsSettledHealth` | src/glb-healthcheck/HealthResultDampener.go:49-95 | for every history the reported health is that of the latest result at which a run had reached its threshold, or of the first |
| `Dampener.ReportChangesExactly` | src/glb-healthcheck/HealthResultDampener.go:75-82 | a report changes exactly when a run of opposite results reaches its threshold |
| `Dampener.ThresholdsDecide` | src/glb-healthcheck/HealthResultDampener.go:49-95 | a failed target is reported healthy exactly when the last results are healthy, as many as the healthy threshold says, and a healthy one failed exactly when the failed threshold is met |
| `Dampener.ReportOpensRun` | src/glb-healthcheck/HealthResultDampener.go:64-82 | what is reported is always the result that opened some run, failure text included |
| `Dampener.FlappingIsDampened` | src/glb-healthcheck/HealthResultDampener.go:43-48 | if no run reaches its threshold, the first result is reported for ever |
| `Dampener.DampenedResultStream` | src/glb-healthcheck/HealthResultDampener.go:49-95 | one report for each result, each the report of the history up to it; one unhealthy zero value for an empty source |
| `TunnelCheck.ExactlyOneResult` | src/glb-healthcheck/TunnelHealthChecker.go:251-297 | in every order of replies, duplicates, strays and timeouts a check gets no result while it waits and exactly one afterwards: the first completion's, on its own channel |
| `TunnelCheck.FirstCompletionDecides` | src/glb-healthcheck/TunnelHealthChecker.go:112-145 | whatever else happens, a check whose first completion is a reply is reported healthy without text, and one whose timer goes off first unhealthy for want of a response |
| `TunnelCheck.FailureDecides` | src/glb-healthcheck/TunnelHealthChecker.go:160-222 | a check that fails before it is sent gets one result with the error: unhealthy if the target cannot be resolved or reached, healthy if the request cannot be made |
| `TunnelCheck.TunnelHealthChecker.GetCheckCompletionChannel` | src/glb-healthcheck/TunnelHealthChecker.go:284-297 | the channel for the first caller, nothing for any other, and nothing stored afterwards |
| `TunnelCheck.TunnelHealthChecker.Complete` | src/glb-healthcheck/TunnelHealthChecker.go:112-145 | replies and timeouts are steps of the model the result above is about |
| `Manager.UpdateMeaning` | src/glb-healthcheck/HealthCheckManager.go:134-162 | targets that stay keep their streams, new ones start afresh, the others are left over |
| `Manager.UpdateBalancedExactly` | src/glb-healthcheck/HealthCheckManager.go:134-162 | an update loses no stream exactly when no target is listed twice |
| `Manager.RoundTidyExactly` | src/glb-healthcheck/HealthCheckManager.go:134-183 | after a round every stream is in use or closed exactly once if and only if no target was listed twice |
| `Manager.RunIsTidy` | src/glb-healthcheck/HealthCheckManager.go:123-191 | in every run over duplicate-free lists each stream is in use by one target or has been closed once, when its target left |
| `Manager.ResultsAreDampenedHistories` | src/glb-healthcheck/HealthCheckManager.go:184-222 | after every round the results are for exactly the current targets, each the dampener applied to the target's raw results since it was last added |
| `Manager.HealthCheckManager.SetTargets` | src/glb-healthcheck/HealthCheckManager.go:93-109 | a list is accepted exactly when every check type is known; otherwise nothing changes |
| `Manager.HealthCheckManager.RunRound` | src/glb-healthcheck/HealthCheckManager.go:128-191 | one iteration of the loop is a round of the model |
| `Manager.UniqueTargets` | src/glb-healthcheck/HealthCheckerAppContext.go:97-115 | the targets handed to the manager are those of all backends, without duplicates |

## Left out

- DPDK, kernel, eBPF and Go runtime internals: each is modelled by what its caller relies on. `qsort` is a selection
  sort of which only sortedness and permutation are used; the distributor hands back packets it was given.
- Tables with fewer than two available backends, and IPv6 backend addresses.
- Rollouts that add or remove more than one host at a time.
- Frames with IPv4 options beyond what `EndToEnd.DirectorReadsTupleExactly` says: flows and messages are otherwise without.
- The array that is sorted holds 256 slots in the code; the model's array is the part in use.
- The rows of a table are computed, the file they are written to and read from is not modelled; nor are JSON, command
  lines, logging, statistics, counters and signals.
- Socket lookup and SYN cookies on the proxies, and the conversion of a forwarded packet to a routed one.
- SipHash.Unrolled: the length byte is the length modulo 256, which for inputs below 40 bytes is the length.
- Redirect.Process: the bound on `cr_len_bytes` can never fail because the length field has five bits.
- EndToEnd.SentIsSound: the IP header checksum the DPDK director fills in next to the UDP one is its library's; it is a free
  value here and in `EndToEnd.FrameArrives`.
- Reload.CountIsExact: counts, rings and context pointers are values of a state machine and each access to them is one
  step, so updating them in place is not captured. The main lcore also stores the startup context but never reads it, so it is not a holder.
- TxLoop.Distributor.Round: handing packets to the workers and getting them back is the distributor's part; the
  round starts with the packets that came back.
- TunnelCheck.ExactlyOneResult: a result counts as delivered when it is sent; the goroutine that waits for the
  receiver is not modelled. Check identifiers are unique.
- Manager.HealthCheckManager.RunRound: one round is one step; each check delivers one raw result in it, and the
  goroutines that drain closed streams are not modelled.
- Which of several matching rules of equal priority wins is up to the access control library; the results hold for
  whichever it picks.
- XdpIngress.LoadBinds: the kernel's own refusal to store an entry is not modelled; before the first reload the map never
  holds more entries than its limit.
- EndToEnd.EncapsulateFrame: there is always headroom in front of the packet.
- XdpIngress.Process: the map entries with hash fields, secrets and tables are always present.
- Classification of bursts into IPv4 and IPv6 batches.
- The HTTP and TCP checkers, and the merging of results into table health.
- Hash quality: that rows and hosts are spread evenly is not decided by the code.
