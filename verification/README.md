# usque: a verified model of the packet path, the connection gate and the text codecs

usque is a client for tunnelling IP over HTTP/3 (CONNECT-IP). This Dafny project models the parts of it where a
small mistake is hard to see, and proves what they keep:

- **The packet path.** QUIC varints (`Varint`), Internet checksums (`OnesComplement`, `IpHeader`), composing and
  parsing CONNECT-IP datagrams (`ConnectIp`), ICMP Packet Too Big and noise packets (`IcmpTooBig`), UDP checksums
  and address rewriting (`UdpPacket`) and what the receiver of a rewritten datagram finds (`UdpReceiver`), and the DNS hijack, a NAT with a table of 256 outstanding queries
  (`DnsHijack`). `HijackRuns`, `HijackIsolation` and `HijackOrder` are about whole runs of the hijack,
  `Outbound` about a query and its answer from end to end.
- **The gate.** `Gate` is a step system over the callbacks of QUIC, HTTP/3 and the event loop, with any number of
  reconnects; `Tunnel` has the object whose methods take those steps, and `TunnelRuns` is about runs of the gate and
  the hijack together.
- **The text codecs.** The chunked decoder (`HttpResponse`, `ChunkedBody`), durations (`Duration`, `DurationLaws`),
  the JSON scanner of the registration (`JsonScan`, `JsonLookup`), and loading and saving the configuration
  (`Config`, `ConfigLaws`, and `ConfigRules` for what is loaded and what is filled in). `Strings` has the searches of `std::string`, `Bytes` the octets and integer widths.

Code that updates buffers or objects is modelled by methods on arrays and classes. Each is proved against a
function of its input or of the old state; the lemmas are about those functions. A packet is the first `len`
octets of a buffer, and every method also says that the octets behind it stay as they were. What the basic predicates
mean is stated once more in octets, characters and numbers, by lemmas that do not use them.

## Where the code does other than its comments or the standards say

Each point names the lemma or method with the exact condition and, where the condition fails, one with packets,
texts or runs that show it.

- `connect_ip.h` promises that the packet is not modified on error. It is, exactly when the error is
  `CIP_ERR_OVERFLOW`: `ConnectIp.ComposeDatagram`, and `ConnectIp.OverflowTakesHop` for a packet of 20 octets.
- The IPv4 checksum covers 20 octets whatever the header length. With options, the whole header verifies exactly
  when the options sum to 0 modulo 65535: `IpHeader.FullHeaderVerifiesIff`, `UdpReceiver.RedirectVerifies`,
  `ConnectIp.ForwardedOptions`, and `UdpReceiver.RouterAlertFails` for a query with a router-alert option.
- The UDP checksum is recomputed over a length taken from the IPv4 Total Length, while RFC 768 takes it from the
  Length field of the UDP header, which the code does not read, nor does it look at the fragment offset. The
  receiver accepts the rewritten datagram exactly when its Length field is in range and what that field adds or
  leaves out sums, with the difference of the lengths, to 0 modulo 65535; with equal lengths it always does:
  `UdpReceiver.RedirectVerifies`, for fragments too, and `UdpReceiver.EqualLengthsReconcile`.
  `UdpReceiver.TrailingQueryRejected` has a query with two octets behind its datagram, and
  `UdpReceiver.FirstFragmentRejected` the first fragment of one.
- A query is recorded before it is known whether it can be sent, and nothing but a response removes it. A pending
  entry belongs to a query that was sent exactly when the connection was ready, the query had two hops left and at
  most 1499 octets: `TunnelRuns.PendingWasHandedIff`, and `TunnelRuns.UnsentQueriesFillTable` for 256 queries that
  are read before the peer has answered.
- Fragmentation Needed quotes 28 octets, as `connect_ip.h` says, and not the header and 64 bits of RFC 792; it
  does so exactly for packets without options and for packets that fit: `IcmpTooBig.QuoteSufficesIff`.
- A full hijack table still redirects a query but does not remember it. The response is restored exactly when
  there was room or the client had another query outstanding: `HijackIsolation.AnsweredIffRoom`, and
  `HijackOrder.FullTableLosesAnswer` for runs of 256 queries and one more.
- Removing an entry moves the last one into its place, so the most recent query of a client need not be answered
  first: `HijackOrder.MostRecentMayLose` has the runs. Over every run of other clients' traffic, the next response
  to a client comes back from a server exactly when no entry of the client asks another one, or fewer entries of
  other clients lie below the highest entry that does than entries of the client lie above it:
  `HijackOrder.RestoredOverRunsIff`, and `HijackOrder.QueryRestoredIff` for a query just made.
- Datagram ids are never reused, across reconnects too, exactly as long as no more than 2^64 datagrams are sent:
  `Gate.IdsNeverReused`, and `Gate.IdsRepeat` for runs that send one more (`Gate.SendingHands` has runs that send
  any number).
- The duration printer puts nothing between components while the parser wants a blank or the end after `h`, `m`
  and `s`, so a printed duration of several components reads back as the default: `DurationLaws.RoundTripIff`, and
  `DurationLaws.NinetySecondsAreLost` for `1m30s`. For the whole configuration: `ConfigLaws.SaveThenLoadIff`, and
  `ConfigLaws.NinetySecondsAreReset` for a document whose keepalive becomes 30 seconds. (`duration.h` gives `1m0s`
  as the text of 60000; the code prints `1m`.)
- The duration scan leaves its text, past the terminator, when the text ends in the octet C2 and `s` and the scan
  takes these for a unit: `Duration.ParseDurationMs` says when, `DurationLaws.LeavesOnlyAtCut` that no other text
  does it, and `DurationLaws.OneCutShort` has such a text.
- The JSON scanner takes the next quoted text for a member that is not a string, and the next object for an outer
  member that is not an object: `JsonLookup.NextQuotedText`, `JsonLookup.NextObject`, and `JsonLookup.NullGivesToken`
  for a text where `id` is found to be `token`.
- The words `Transfer-Encoding: chunked` are looked for in the whole response, body included:
  `ChunkedBody.PlainResponseIff`, and `ChunkedBody.PlainBodyIsLost` for bodies that mention them.

## Model

| member | source | states |
|---|---|---|
| OnesComplement.FoldIsResidue | src/connectip/connect_ip.c:64-66 | the carry loop ends with a 16-bit value congruent to the sum modulo 65535, and 0 only for a sum of 0 |
| OnesComplement.DeferredCarries | src/connectip/connect_ip.c:183-195 | for octets of any length, odd ones included, adding all words first and folding once is the end-around-carry sum of RFC 1071 |
| OnesComplement.WordSumConcat | src/connectip/connect_ip.c:238-248 | the sum over two buffers, the first of even length, is the sum over their concatenation |
| OnesComplement.WordSumBound | src/tun/dns_hijack.c:44-50 | up to 131074 octets the 32-bit accumulator cannot overflow, so never for a 16-bit length |
| OnesComplement.StoredChecksumVerifies | src/connectip/connect_ip.c:58-68 | data with a zero checksum word verifies with `w` stored there exactly when `w` is the complement of the sum, or 0xffff in place of 0 |
| OnesComplement.StoredBehindPseudoHeader | src/tun/dns_hijack.c:33-57 | the same for a message checksummed together with a pseudo-header it does not contain |
| OnesComplement.FoldComplement | src/connectip/connect_ip.c:64-67 | the loop and the complement, for every 32-bit sum |
| OnesComplement.AddWords | src/connectip/connect_ip.c:298-303 | the word loop with its odd tail adds exactly the word sum, without wrapping |
| OnesComplement.IcmpChecksum | src/connectip/connect_ip.c:183-195 | the checksum of any length of data, the 32-bit accumulator wrapping where it does |
| IpHeader.Ipv4Checksum | src/connectip/connect_ip.c:58-68 | the ten words but the one at offset 10, whatever the header length field says |
| IpHeader.WriteHeaderChecksum | src/connectip/connect_ip.c:114 | the checksum stored in place; nothing else changes |
| IpHeader.RefreshedHeaderVerifies | src/connectip/connect_ip.c:58-68 | after the checksum is stored, the first 20 octets sum to 0xffff for a receiver |
| IpHeader.FullHeaderVerifiesIff | src/connectip/connect_ip.c:58-68 | the full header verifies exactly when its option words sum to 0 modulo 65535 |
| Varint.Encode | src/connectip/connect_ip.c:8-41 | fails exactly when the value is 2^62 or more or the buffer is short, and then writes nothing; otherwise writes the encoding and nothing else |
| Varint.Decode | src/connectip/connect_ip.c:43-54 | what the decoder reads, its length test on a 32-bit int included |
| Varint.DecodeInvertsEncode | src/connectip/connect_ip.c:8-54 | decoding an encoding followed by anything gives the value and the length of its encoding |
| Varint.EncodingIsShortest | src/connectip/connect_ip.c:8-54 | no octets decode to a value in fewer octets than its encoding has; lengths are 1, 2, 4 or 8 |
| Varint.ReencodeIffMinimal | src/connectip/connect_ip.c:8-54 | re-encoding a decoded value restores its octets exactly when they were minimal |
| Varint.PrefixFree | src/connectip/connect_ip.c:8-41 | no encoding starts another one |
| Varint.ZeroEncodings | src/connectip/connect_ip.c:43-54 | the octets that decode to 0 are exactly the four encodings of 0 |
| Varint.ShortVarintBytes | src/connectip/connect_ip.c:9-27 | the octets of an encoding of 1, 2 and 4 octets, with their length prefixes 0x00, 0x40 and 0x80 |
| Varint.LongVarintBytes | src/connectip/connect_ip.c:28-39 | the octets of an encoding of 8 octets, with the prefix 0xc0 |
| Varint.SampleEncodings | src/connectip/connect_ip.c:8-54 | the sample encodings of RFC 9000, appendix A.1 |
| ConnectIp.TakeHop | src/connectip/connect_ip.c:94-129 | the version switch in place: which error for which packet, one hop fewer otherwise, unchanged on error |
| ConnectIp.ComposeDatagram | src/connectip/connect_ip.c:92-139 | the return code as a number for every packet and capacity, read off the octets; the datagram, an untouched output on every error, and an unchanged packet exactly on the errors that are not an overflow |
| ConnectIp.ConsistentOctets | src/connectip/connect_ip.c:98-123 | which headers are consistent with the packet, read off the octets |
| ConnectIp.ForwardableOctets | src/connectip/connect_ip.c:98-126 | which packets compose lets through, for IPv4 and IPv6, read off the octets: TTL or Hop Limit at least 2; and the hop that it takes off |
| ConnectIp.ForwardedEffect | src/connectip/connect_ip.c:92-139 | only the hop count and the IPv4 checksum change, the hop count by one, and the checksum then verifies |
| ConnectIp.ForwardedOptions | src/connectip/connect_ip.c:102-114 | with options, the whole header verifies after compose exactly when they sum to 0 modulo 65535 |
| ConnectIp.OverflowTakesHop | src/connectip/connect_ip.c:112-133 | a packet of 20 octets and a capacity of 20: overflow, and the packet has lost a hop |
| ConnectIp.ParseDatagram | src/connectip/connect_ip.c:143-179 | success exactly for acceptable datagrams, where the packet starts, and which error means what |
| ConnectIp.AcceptsExactly | src/connectip/connect_ip.c:143-179 | acceptance is one of the four encodings of 0 followed by a structurally consistent IPv4 or IPv6 packet, all in octets, the cast of the length to an int included |
| ConnectIp.ContextZero | src/connectip/connect_ip.c:131-136 | a zero octet before a consistent packet parses back to that packet |
| ConnectIp.ParseInvertsCompose | src/connectip/connect_ip.c:92-179 | for every packet that compose accepts, parse returns exactly the packet with one hop fewer |
| IcmpTooBig.FragmentationNeeded | src/connectip/connect_ip.c:218-272 | ICMP and header checksum verify, addresses swapped, 48 to 56 octets, the quoted octets and the MTU, and compose accepts it |
| IcmpTooBig.FragmentationNeededOctets | src/connectip/connect_ip.c:218-272 | every octet of the answer but the two checksums: header fields, protocol 1, type and code, MTU and quote |
| IcmpTooBig.QuoteSufficesIff | src/connectip/connect_ip.c:221-222 | the quote holds the header and the next 8 octets exactly when the packet has no options or fits the quote |
| IcmpTooBig.PacketTooBig | src/connectip/connect_ip.c:274-320 | the checksum verifies over the pseudo-header of the answer's own header, at most 1280 octets, addresses swapped, quoted octets and MTU, and compose accepts it |
| IcmpTooBig.PacketTooBigOctets | src/connectip/connect_ip.c:274-320 | every octet of the answer but the checksum: header fields, Next Header 58, type and code, MTU and quote |
| IcmpTooBig.PseudoHeaderOctets | src/connectip/connect_ip.c:292-297 | the octets of the pseudo-header, with the length and the number 58 |
| IcmpTooBig.TwoLoopsOneChecksum | src/connectip/connect_ip.c:238-253 | summing the 8-octet header and the quoted octets in two loops gives the checksum of the concatenated message, for odd lengths too |
| IcmpTooBig.PseudoHeaderSum | src/connectip/connect_ip.c:198-208 | the addresses summed in step plus length and next header are the word sum of the pseudo-header, without wrapping |
| IcmpTooBig.ComposeTooBig | src/connectip/connect_ip.c:212-324 | the return code as a number for every packet and capacity, and on success the whole answer, with nothing behind it touched |
| IcmpTooBig.ComposeTooBigV4 | src/connectip/connect_ip.c:218-272 | the IPv4 branch writes the answer of `FragmentationNeeded` when it fits, and nothing otherwise |
| IcmpTooBig.ComposeTooBigV6 | src/connectip/connect_ip.c:274-320 | the IPv6 branch writes the answer of `PacketTooBig` when it fits, and nothing otherwise |
| IcmpTooBig.ComposeIcmpHeader | src/connectip/connect_ip.c:228-253 | header and quoted octets together are the message whose checksum verifies |
| IcmpTooBig.WriteMessage | src/connectip/connect_ip.c:283-307 | the ICMPv6 message checksummed in place on top of the pseudo-header |
| IcmpTooBig.ComposeNoise | src/connectip/connect_ip.c:328-358 | overflow exactly when it does not fit; otherwise the packet, with nothing behind it touched |
| IcmpTooBig.NoiseIsForwardable | src/connectip/connect_ip.c:328-358 | the octets of a noise packet; compose accepts it, and its header verifies before and after the hop |
| UdpPacket.ParseUdp | src/tun/dns_hijack.c:78-94 | the tests accept exactly the IPv4 packets of protocol UDP whose header and Total Length lie inside the packet and leave at least 8 octets; the Length field of the UDP header is not looked at |
| UdpPacket.ComputeUdpChecksum | src/tun/dns_hijack.c:33-57 | the checksum of pseudo-header and segment, both by the Total Length, with the 0 to 0xffff substitution; no wrap-around |
| UdpPacket.WriteUdpChecksum | src/tun/dns_hijack.c:124-128 | the checksum zeroed, recomputed and stored in place |
| UdpPacket.RedirectInPlace | src/tun/dns_hijack.c:116-128 | address and both checksums rewritten in place, nothing behind the packet touched |
| UdpPacket.RefreshedSegmentVerifies | src/tun/dns_hijack.c:124-128 | the sum over pseudo-header and segment by the Total Length verifies with the stored checksum, which is never 0 |
| UdpPacket.RedirectFrame | src/tun/dns_hijack.c:116-128 | the new address is in place; besides it and the two checksums no octet differs |
| UdpPacket.RedirectShape | src/tun/dns_hijack.c:116-128 | ports and lengths stay |
| UdpReceiver.SumsDiffer | src/tun/dns_hijack.c:93-94 | by how much the code's sum, by the Total Length, and the receiver's, by the Length field, differ, for even and odd lengths and for either being the longer |
| UdpReceiver.AcceptedIff | src/tun/dns_hijack.c:124-128 | a receiver that goes by the Length field (RFC 768), with further fragments or none, accepts what the code has summed exactly when the lengths reconcile |
| UdpReceiver.EqualLengthsReconcile | src/tun/dns_hijack.c:93-94 | equal lengths always reconcile |
| UdpReceiver.AcceptedElsewhere | src/connectip/connect_ip.c:112-114 | whether the receiver accepts does not depend on the hop count or the header checksum |
| UdpReceiver.RedirectVerifies | src/tun/dns_hijack.c:116-128 | after a rewrite 20 octets verify; the full header exactly when the options sum to 0 modulo 65535; and the receiver accepts the datagram exactly when the lengths of the original packet reconcile |
| UdpReceiver.RouterAlertFails | src/tun/dns_hijack.c:119-122 | a query with a router-alert option whose header does not verify after the rewrite |
| UdpReceiver.TrailingQueryRejected | src/tun/dns_hijack.c:124-128 | a query of 30 octets, two behind its datagram, that every rewrite makes the receiver reject |
| UdpReceiver.FirstFragmentRejected | src/tun/dns_hijack.c:124-128 | a first fragment that is rejected once it is put together with the octets it lacks |
| DnsHijack.LastMatch | src/tun/dns_hijack.c:162-164 | the backward search finds the highest index of that client, or none |
| DnsHijack.IsUdpByOctets | src/tun/dns_hijack.c:79-94 | which packets count as UDP, read off the octets |
| DnsHijack.QueryByOctets | src/tun/dns_hijack.c:77-131 | exactly the UDP packets to port 53 become queries to the target while it is set, and are appended with the addresses and the port in their octets while fewer than 256 are outstanding; any other packet changes nothing |
| DnsHijack.ResponseByOctets | src/tun/dns_hijack.c:133-188 | exactly the UDP packets from port 53 of the target, addressed to a client with an entry, get the source of its highest entry, which the last one replaces; any other packet changes nothing |
| DnsHijack.Hijack.constructor | src/tun/dns_hijack.c:59-71 | an empty table; without an address the hijack is disabled |
| DnsHijack.Hijack.Record | src/tun/dns_hijack.c:109-114 | appends while fewer than 256 entries are outstanding, otherwise nothing |
| DnsHijack.Hijack.Find | src/tun/dns_hijack.c:162-164 | the loop computes that search |
| DnsHijack.Hijack.Remove | src/tun/dns_hijack.c:172 | the entry is replaced by the last one |
| DnsHijack.Hijack.RewriteQuery | src/tun/dns_hijack.c:77-131 | which packets are rewritten, the packet and the table afterwards, everything else unchanged |
| DnsHijack.Hijack.RewriteResponse | src/tun/dns_hijack.c:133-188 | which responses are restored, the packet and the table afterwards, everything else unchanged |
| HijackRuns.SwapRemoveMultiset | src/tun/dns_hijack.c:172 | as a multiset, the table loses exactly the entry that was answered |
| HijackRuns.RunIsFaithful | src/tun/dns_hijack.c:77-188 | over every interleaving the table holds exactly the recorded queries not yet answered, and every restored response got the destination of an earlier recorded query of the same client |
| HijackRuns.LedgerIsComplete | src/tun/dns_hijack.c:77-188 | the history names every recording and every answering event once, in order |
| HijackRuns.NoQueryConsumedTwice | src/tun/dns_hijack.c:109-114 | no query is consumed twice or both consumed and pending; recorded = restored + pending, and pending is at most 256 |
| HijackRuns.EveryAnswerHasItsQuery | src/tun/dns_hijack.c:157-184 | each restored response has an earlier recorded query from the same address and port, and carries its destination |
| HijackIsolation.Isolation | src/tun/dns_hijack.c:162-172 | other clients' traffic of any length neither adds nor removes an entry of a client |
| HijackIsolation.ExactRestoration | src/tun/dns_hijack.c:102-117 | from any table in which all entries of the client ask one server, after any traffic of others, the next response comes back from exactly that server, only octets 10 to 15 and the UDP checksum changed; the header verifies, and the receiver accepts the datagram exactly when its lengths reconcile |
| HijackIsolation.EqualLengthsVerify | src/tun/dns_hijack.c:179-182 | a restored response whose Length field agrees with its Total Length is accepted |
| HijackIsolation.AnsweredIffRoom | src/tun/dns_hijack.c:109-117 | after a query, whatever the table held, its client's next response is restored exactly when there was room or an older entry of the client; otherwise it passes unchanged although the query was redirected |
| HijackIsolation.AnswerInEveryOrderIff | src/tun/dns_hijack.c:162-172 | the search result is independent of the order of the entries, reachable or not, exactly when all entries of the client ask the same server |
| HijackIsolation.NextInLineKeptIff | src/tun/dns_hijack.c:172 | exactly when removing another client's entry changes which query is answered next |
| HijackOrder.RemoveKeepsDifference | src/tun/dns_hijack.c:172 | another client's removal keeps the difference between the others' entries below a rival entry and the client's entries above it |
| HijackOrder.Unseat | src/tun/dns_hijack.c:162-172 | with enough entries of others below it, a rival entry becomes the next answer after a run of packets that can arrive |
| HijackOrder.NextOverRunsIff | src/tun/dns_hijack.c:109-172 | over every run of other clients' traffic the next answer is one given server, exactly under the counting condition |
| HijackOrder.RestoredOverRunsIff | src/tun/dns_hijack.c:133-188 | every response to the client after every such run comes back from that server with nothing but address and checksums changed, exactly under the same condition |
| HijackOrder.QueryRestoredIff | src/tun/dns_hijack.c:102-117 | exactly when a query can rely on its answer coming back from the server it asked, with room in the table and without |
| HijackOrder.FullTableLosesAnswer | src/tun/dns_hijack.c:109-117 | runs from the empty table that fill it, and a further query whose response passes unchanged |
| HijackOrder.MostRecentMayLose | src/tun/dns_hijack.c:172 | runs from the empty table after which a client's response comes back from the server it asked first |
| Outbound.QueryStaysForwardable | src/tun/dns_hijack.c:116-128 | a rewritten query has its shape and hop count, and compose accepts it exactly when it has two hops left |
| Outbound.QuerySentIff | src/tunnel.cpp:157-171 | on a ready tunnel exactly the queries with two hops left and at most 1499 octets are sent |
| Outbound.QueryReachesFarEnd | src/transport/quic_engine.cpp:327-355 | the datagram handed to QUIC is accepted at the far end and yields the rewritten query with one hop fewer |
| Outbound.ArrivingFrame | src/tunnel.cpp:157-171 | what arrives is the query except for destination, hop count and the two checksums, for every header length |
| Outbound.ArrivingVerifies | src/tunnel.cpp:157-171 | on arrival 20 octets verify; the full header exactly when the options sum to 0; and the receiver accepts the datagram, across the hop, exactly when the lengths of the query reconcile |
| Outbound.PlainHeaderVerifies | src/tunnel.cpp:157-171 | without options the whole header verifies, and with equal lengths the datagram is accepted |
| Outbound.AnswerComesBack | src/tunnel.cpp:374-384 | in every state that meets the condition, after any traffic of others, the response datagram parses and is delivered with that server as its source |
| Gate.PacketsKeep | src/tunnel.cpp:237-271 | any number of noise packets keep the invariant |
| Gate.EventKeeps | src/transport/quic_engine.cpp:40-115 | every enabled callback keeps the log safe and the flags equal to what the log shows |
| Gate.RunIsSafe | src/transport/quic_engine.cpp:327-380 | over every run with reconnects: datagrams and noise only after a 200 status and an end of headers on the same connection and before its cleanup, CONNECT and the burst at most once on each; and ready exactly when the log shows these two |
| Gate.OpenExactlyAfterOk | src/transport/http3_connect.cpp:52-71 | over every run, told by the events alone: the gate is open exactly when the current connection has received a status header that starts with the characters 200 and a later end of headers; likewise for the other flags |
| Gate.OtherStatusStaysClosed | src/transport/http3_connect.cpp:54 | runs with any other status, 403 say, hand over nothing |
| Gate.StartAndFinish | src/transport/quic_engine.cpp:373-380 | what each way an attempt can go, and a cleanup, leave of the flags |
| Gate.HandedIff | src/transport/quic_engine.cpp:327-355 | on a live connection a packet is handed over exactly when the log shows it ready, compose accepts the packet and it has at most 1499 octets |
| Gate.BurstIff | src/tunnel.cpp:112-117 | a timer starts the burst exactly when the log shows the connection ready and no burst since its start |
| Gate.IdsNeverReused | src/transport/quic_engine.cpp:352-355 | ids strictly increase across reconnects exactly as long as at most 2^64 datagrams are sent |
| Gate.GateOpens | src/transport/http3_connect.cpp:52-71 | a run of four callbacks after which the gate is open |
| Gate.SendingHands | src/transport/quic_engine.cpp:327-355 | for every number and every forwardable packet that fits, a run that hands over that many datagrams |
| Gate.IdsRepeat | src/transport/quic_engine.cpp:352-355 | runs of 2^64 + 1 datagrams that use the id 0 twice |
| Tunnel.UsqueTunnel.constructor | src/tunnel.cpp:494-498 | the tunnel starts in the initial state of the step system, all cleared to zero |
| Tunnel.UsqueTunnel.Connect | src/tunnel.cpp:287-425 | one connection attempt up to the event loop is the start step; past the TUN device, the hijack is new with an empty table, before it, nothing changes |
| Tunnel.UsqueTunnel.OnHandshake | src/transport/quic_engine.cpp:40-46 | the handshake callback is its step |
| Tunnel.UsqueTunnel.OnStreamsAvailable | src/transport/quic_engine.cpp:96-115 | HTTP/3 is set up and CONNECT submitted only while no HTTP/3 connection exists; what each failure leaves behind |
| Tunnel.UsqueTunnel.OnHeader | src/transport/http3_connect.cpp:45-59 | connected exactly after a status whose first characters are 2, 0 and 0 |
| Tunnel.UsqueTunnel.OnEndOfHeaders | src/transport/http3_connect.cpp:61-72 | ready only when connected |
| Tunnel.UsqueTunnel.SendPacket | src/transport/quic_engine.cpp:327-366 | the return code in every case, what is handed to QUIC, the id it uses up, and the caller's packet untouched |
| Tunnel.UsqueTunnel.OnTimer | src/tunnel.cpp:109-121 | the burst goes out once per connection, on a ready tunnel, and is the timer step |
| Tunnel.UsqueTunnel.Cleanup | src/transport/quic_engine.cpp:373-380 | every flag is reset and the datagram id is not |
| Tunnel.UsqueTunnel.OnTunRead | src/tunnel.cpp:157-171 | a packet from the TUN device is rewritten, recorded and sent as the step system says |
| Tunnel.UsqueTunnel.OnDatagram | src/transport/quic_engine.cpp:81-94 | exactly the acceptable datagrams are delivered, restored by the table as it was |
| TunnelRuns.GateProjection | src/tunnel.cpp:157-171 | in a run of the whole tunnel the gate goes through a run of its own |
| TunnelRuns.PendingIsTraced | src/tunnel.cpp:165-169 | over every run with reconnects each pending entry remembers a query read on the same connection, no two the same |
| TunnelRuns.PendingWasHandedIff | src/tunnel.cpp:165-169 | a pending entry belongs to a query that was handed to QUIC exactly when the log showed the connection ready at the time, with two hops left and at most 1499 octets |
| TunnelRuns.UnsentQueriesFillTable | src/tunnel.cpp:165-169 | 256 queries read before the peer has answered fill the table and none is sent; once the gate opens, the next query is sent and not remembered |
| Strings.FindUnique | src/api/https_client.cpp:125 | `find` returns the first occurrence at or after a position |
| HttpResponse.DecodeChunked | src/api/https_client.cpp:133-145 | the loop computes the round-by-round decoding, exceptions and the 64-bit wrap-around of the position included |
| HttpResponse.SplitResponse | src/api/https_client.cpp:124-149 | the body handed out for any response text |
| ChunkedBody.NamesTheEncoding | src/api/https_client.cpp:130-131 | a response counts as chunked exactly when one of the two spellings occurs in it |
| ChunkedBody.NoHeadersNoBody | src/api/https_client.cpp:125-126 | a response without an empty line has no body |
| ChunkedBody.StoulReadsSize | src/api/https_client.cpp:137-138 | a size of any hex case and length below 2^64 is read whole and ends at the extension |
| ChunkedBody.HexIsRead | src/api/https_client.cpp:138 | a number printed in hex digits is read as itself |
| ChunkedBody.SampleSizes | src/api/https_client.cpp:138 | sizes with white space, a sign and a `0x` |
| ChunkedBody.HugeSize | src/api/https_client.cpp:140-144 | sizes of 2^63 and more end the body or throw |
| ChunkedBody.RoundOverChunk | src/api/https_client.cpp:134-145 | one round passes exactly one chunk, and takes its data exactly when all of it is there |
| ChunkedBody.DecodesWhatIsPresent | src/api/https_client.cpp:133-145 | for every list of chunks and every truncation the result is the data of the chunks wholly present, line breaks in the data included |
| ChunkedBody.DecodeInvertsPrint | src/api/https_client.cpp:133-145 | a complete chunked body decodes to the concatenation of its chunks, whatever the trailers |
| ChunkedBody.DecodeShrinks | src/api/https_client.cpp:134-145 | a decoded body is shorter than its encoding |
| ChunkedBody.HttpNeverRestarts | src/api/https_client.cpp:134-145 | in a response that starts with `HTTP/` a wrapped position never leads to another chunk |
| ChunkedBody.ChunkedResponse | src/api/https_client.cpp:124-145 | a response in which either spelling of the encoding occurs yields the concatenation of its chunks |
| ChunkedBody.HelloIsDecoded | src/api/https_client.cpp:124-145 | a usual response, header and all |
| ChunkedBody.PlainResponseIff | src/api/https_client.cpp:130-147 | an unencoded body is returned as sent exactly when neither spelling occurs anywhere in the response, or the body is empty |
| ChunkedBody.PlainBodyIsLost | src/api/https_client.cpp:130-147 | unencoded bodies that mention the encoding and come back empty |
| Duration.ParseDurationMs | src/config/duration.cpp:44-87 | the scan ends on every input and returns the truncated sum of its terms or the default; it stays inside the text exactly when no unit takes more characters than are left |
| Duration.FormatDurationMs | src/config/duration.cpp:89-114 | the non-zero components, largest first |
| Duration.ComponentsSumUp | src/config/duration.cpp:94-111 | the components add up to the duration, each below one of the next larger unit |
| DurationLaws.ParseAddsTerms | src/config/duration.cpp:44-87 | for every list of terms, signed and fractional numbers and lone `s` included, with blanks only where the parser needs them, the result is the exact sum of number times unit, cut to whole milliseconds towards zero |
| DurationLaws.DecimalIsPositional | src/config/duration.cpp:67 | the digits before and behind a point have their positional value |
| DurationLaws.MissingUnit | src/config/duration.cpp:75-78 | a number without a unit ends the sum, or gives the default if it is the first |
| DurationLaws.JunkGivesDefault | src/config/duration.cpp:66-68 | where a number should start and none does, the default is returned whatever came before |
| DurationLaws.LeavesOnlyAtCut | src/config/duration.cpp:15-22 | only a text that ends in the octet C2 and `s` can make the scan leave it |
| DurationLaws.CutShortIff | src/config/duration.cpp:15-22 | good terms keep the scan inside; behind them and a number, it stays inside exactly when the unit and what follows do, which C2 and `s` do not |
| DurationLaws.OneCutShort | src/config/duration.cpp:82 | a text of three characters on which the scan leaves it |
| DurationLaws.SeveralComponentsFail | src/config/duration.cpp:28-38 | an `h`, `m` or `s` with anything but a blank or the end behind it makes the parser return the default |
| DurationLaws.ParseOfFormat | src/config/duration.cpp:44-114 | parsing a printed duration gives it back with at most one non-zero component, and the default otherwise |
| DurationLaws.RoundTripIff | src/config/duration.cpp:44-114 | the round trip succeeds exactly for non-negative durations with at most one component, or equal to the default |
| DurationLaws.NinetySecondsAreLost | src/config/duration.cpp:94-111 | 90000 prints as `1m30s`, which parses to the default |
| DurationLaws.SampleFormats | src/config/duration.cpp:89-114 | the order of the components and their units; 0 and less print as `0s` |
| Config.ApplyDefaults | src/config/defaults.cpp:5-25 | the defaults filled in place, nothing else changed |
| Config.PushDns | src/config/parse.cpp:115-122 | the strings of the array in order, other items skipped |
| Config.FillTun | src/config/parse.cpp:106-123 | the inbound settings, with the defaults of a missing section |
| Config.FillOutbound | src/config/parse.cpp:194-206 | the outbound settings, a tag beside them winning over one inside |
| Config.ParseDocument | src/config/parse.cpp:155-219 | the loaded configuration, or which error for which document |
| Config.Finish | src/config/parse.cpp:208-218 | defaults, then validation; the first complaint rejects |
| ConfigRules.LoadedIff | src/config/parse.cpp:155-219 | a document is loaded exactly when account and inbound are objects, the type is `tun`, and the settings with defaults keep the rules, each written out |
| ConfigRules.ShapeMessages | src/config/parse.cpp:158-187 | which message a document of another shape gets, first things first |
| ConfigRules.Verdict | src/config/validate.cpp:37-54 | the first broken rule, in the order of the sections, gives the message |
| ConfigRules.NoiseMessage | src/config/validate.cpp:23-35 | the rules of an enabled noise section and their messages |
| ConfigRules.CongestionMessage | src/config/validate.cpp:5-21 | the rules of the congestion section and their messages |
| ConfigRules.NoiseDecides | src/config/validate.cpp:47-48 | in a configuration that keeps the other rules the noise section decides |
| ConfigRules.NoiseSizes | src/config/validate.cpp:28-30 | sizes of 40 to 1200 are loaded, of 1200 to 40 rejected |
| ConfigRules.DefaultValues | src/config/defaults.cpp:5-25 | the values that are filled in |
| ConfigRules.EmptyInbound | src/config/parse.cpp:106-123 | the inbound settings of an empty and of a missing object |
| ConfigRules.EmptyOutbound | src/config/parse.cpp:125-153 | the outbound settings of an empty and of a missing object |
| ConfigRules.TagOf | src/config/parse.cpp:202-205 | which tag wins |
| ConfigRules.CStrCuts | src/config/parse.cpp:16-21 | a string ends at its first NUL |
| ConfigRules.NumbersRead | src/config/parse.cpp:23-48 | which numbers are taken, which wrap and which give the default |
| ConfigRules.OtherKinds | src/config/parse.cpp:16-55 | a member of another kind counts as missing |
| ConfigRules.NamesRead | src/config/parse.cpp:76-87 | the names of congestion types and profiles that are recognised |
| ConfigRules.StringsOfParts | src/config/parse.cpp:115-122 | the strings of a list in order, other items skipped |
| ConfigRules.SavedAccount | src/config/serialize.cpp:76-88 | the name under which each account field is saved |
| Config.AddNoise | src/config/serialize.cpp:22-32 | the noise object, its delays printed as durations |
| Config.SaveOutbound | src/config/serialize.cpp:115-139 | the outbound settings without their tag |
| Config.SaveDocument | src/config/serialize.cpp:70-142 | the document that is written |
| ConfigLaws.DurationReadsBack | src/config/parse.cpp:57-61 | a saved duration reads back as what parsing its text gives |
| ConfigLaws.CongestionReadsBack | src/config/serialize.cpp:34-50 | the names of congestion types and profiles read back as themselves |
| ConfigLaws.LoadOfDocument | src/config/parse.cpp:155-219 | loading a saved document gives the configuration with re-read durations and tag, defaulted and validated again |
| ConfigLaws.LoadedIsSettled | src/config/parse.cpp:155-219 | what every successfully loaded configuration satisfies: no NUL in its strings, all defaults in place, valid |
| ConfigLaws.SettledIsFixed | src/config/defaults.cpp:5-25 | applying the defaults to it again changes nothing |
| ConfigLaws.RereadIff | src/config/duration.cpp:44-114 | which durations survive saving, and what the others become |
| ConfigLaws.SaveThenLoadIff | src/config/serialize.cpp:70-142 | saving and loading a loaded configuration is the identity exactly when its tag is not empty and each duration is non-negative with a single component |
| ConfigLaws.NinetySecondsAreReset | src/config/serialize.cpp:120-124 | a document with a keepalive of 90 seconds that comes back with 30 after saving |
| JsonScan.GetString | src/api/register.cpp:47-58 | the chain of searches on any text, an empty string on every miss |
| JsonScan.MatchBrace | src/api/register.cpp:70-76 | the loop over `depth` ends behind the matching brace, or at the end of the text |
| JsonScan.GetNestedString | src/api/register.cpp:61-79 | the nested lookup on any text |
| JsonLookup.ScanPassesValue | src/api/register.cpp:70-76 | the scanner passes a printed value of any nesting of objects and lists whole, at the depth it started with |
| JsonLookup.ObjectIsFound | src/api/register.cpp:69-77 | from the opening brace of a printed object the scanner cuts out exactly that object |
| JsonLookup.KeyFoundIff | src/api/register.cpp:48-49 | the search ends at the member's own key exactly when no occurrence ends before or at its opening quote |
| JsonLookup.StringIsFound | src/api/register.cpp:47-58 | the lookup returns the value of the first member with that key |
| JsonLookup.OuterObject | src/api/register.cpp:64-77 | the outer key leads to exactly its own balanced object |
| JsonLookup.NestedLookup | src/api/register.cpp:61-79 | nested lookup returns the inner member's value, at whatever depth both members stand |
| JsonLookup.LookupInvertsPrint | src/api/register.cpp:61-79 | printing a tree and looking up a member of one of its objects gives back that member's value |
| JsonLookup.NextQuotedText | src/api/register.cpp:51-57 | behind a key without a string value the lookup returns the next quoted text, and `NoQuotedText` nothing without one |
| JsonLookup.BareGivesNextName | src/api/register.cpp:51-57 | for a number, a boolean or null of a printed tree, that is the name of the next member |
| JsonLookup.NullGivesToken | src/api/register.cpp:51-57 | a text in which `id` is null and found to be `token` |
| JsonLookup.NextObject | src/api/register.cpp:67-78 | behind an outer key without an object the nested lookup goes to the next object, and by `NoObject` finds nothing without one |

## Left out

- Foreign code: ngtcp2, nghttp3, BoringSSL, libuv and rapidjson appear only as events with arbitrary outcomes; sockets, TLS, the `on_write` loop and HTTP/3 flow control depend on their contracts and are not modelled.
- The event rules of `Gate.Enabled` state what those libraries promise: callbacks and timers run only inside the event loop of a set-up connection, HTTP/3 callbacks only while its connection object exists.
- TUN drivers, routes, the command line, C accessors, the copying of configurations, error names.
- The supervisor: whether `run` ends after a stop is not claimed; its reconnect loop is a run with any number of starts.
- Timers, sleeps, pre-noise datagrams and the choice of noise sizes; the packets of a burst are arbitrary.
- IcmpTooBig.ComposeNoise: the values of `rand` are parameters, and `20 + payload_size` is taken without wrap-around.
- IPv6 DNS hijacking: its target is stored by the source and never used. The IPv4 target is a parsed address; `inet_pton` is not modelled.
- UdpReceiver.RedirectVerifies: further fragments are given as the octets they add; that they keep their own addresses, so that a receiver may not put them together with a rewritten first one, is not modelled. A receiver that skips the check for a stored 0 does not matter, since 0 is never stored.
- DnsHijack.Hijack.constructor: failure of `calloc` is not modelled; a missing context is the null `hijack` of the tunnel.
- Tunnel.UsqueTunnel.SendPacket: the sockets' own results are not modelled, and the value of `NGTCP2_ERR_INVALID_STATE` is a constant of the model because the library is not in the repository.
- Tunnel.UsqueTunnel.OnDatagram: datagrams are at most 65535 octets long, the limit announced in the transport parameters, which is what keeps the 65536-octet copy buffer of the callback large enough.
- Tunnel.UsqueTunnel.Connect: the steps before the engine is set up (TUN device, socket, routes) are outcomes of the attempt, and their resources are not tracked.
- Shifts and masks are written as division, remainder and addition on bounded integers; buffers given to one call do not overlap.
- HttpResponse.DecodeChunked: texts are shorter than 2^63 and `unsigned long` has 64 bits. When the position wraps to the start of a response that itself starts with a chunk size, which no HTTP response does, the source may loop; the model gives `Restarts`. The status line is not modelled.
- Duration.ParseDurationMs: `strtod` reads decimal digits with an optional fraction and sign (no exponents, hex, infinities), doubles are reals without rounding, and the cast to a 64-bit integer is taken in range; the laws about printed durations are for durations below 2^53 ms, which doubles hold exactly. Where the scan leaves the text (`Inside` is false) the source reads past the terminator; the model stops there.
- Duration.FormatDurationMs: the argument is an unbounded integer; `std::to_string` is the decimal numeral.
- Config.ParseDocument: the JSON text itself is rapidjson's work; documents are trees whose objects map each name to its first value. Account, noise and congestion sections are read by functions, since the source fills them without a branch of its own.
- JsonScan.GetNestedString: its two sibling scanners for peers and interface addresses share the brace loop and are not modelled separately, nor are PEM newlines and Base64.
- JsonLookup.LookupInvertsPrint: names and strings hold no quotes, braces or backslashes, since the scanner does not know about escapes; texts are printed without white space.
