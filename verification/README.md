# Verified models of the tunnel client

A Dafny 4.11 project about the parts of the desktop tunnel client whose correctness is hard to see:

- **DNS wire format with name compression** (`internal/dnsttcore/dns`). The builder caches the offset of every
  suffix it writes, and a cached suffix may itself end in a pointer, so chains of pointers grow while a reader
  follows at most ten. `DnsRoundTrip.RoundTrip` says exactly when parsing inverts serialising.
- **The DNS tunnel on top of it** (`internal/dnsttclient`): packets as base32 labels upstream, as length-prefixed
  frames in TXT records downstream, the capacity formula, the poll schedule and the weighted-list parser.
- **The map of remote peers** (`internal/dnsttcore/turbotunnel`): a heap by age and an index by address that must
  stay in step, refining a plain map.
- **The connection manager** (`internal/engine/manager.go`): every interleaving of its critical sections, the kill
  switch and what it has in force, and the journal of route changes (`internal/routes`), down to where each
  address is routed.
- **HTTP negotiation before SSH** (`internal/engine/payload.go`): which octets are consumed and which are handed on.
- **UDPGW and SOCKS5 UDP** (`internal/engine/udpgw_client.go`, `internal/engine/socks5.go`).

`dafny verify dfyconfig.toml` checks everything.

## How the model is laid out

Code that changes state is a class or a method with loops (`DnsCodec`, `RemoteMap`, `RouteCommands`, `Manager`,
`PayloadConn`, `UdpgwSession`, `PollSchedule`, `WeightedList`), proved equal to a function on values; the laws are
lemmas about those functions. Runs and interleavings are sequences of events folded over a step function, and a
law about "every run" quantifies over all such sequences.

Octets are integers from 0 to 255, and 16- and 32-bit fields are bounded integers with the truncations of the code
written out. A panic in the code is a precondition of the method that would panic, or a result where input leads to it.
Random numbers, the clock, DNS
answers and refusals by the operating system are parameters.

## Model

| member | source | states |
|---|---|---|
| DnsName.String | internal/dnsttcore/dns/dns.go:112-134 | the printing loop yields the escaped, dot-joined text |
| DnsName.TextEqualIff | internal/dnsttcore/dns/dns.go:109-134 | for all names, labels proper or not: two names print alike if and only if they are equal or one is the root and the other two empty labels; so with proper labels the text can be a cache key |
| DnsName.TrimSuffix | internal/dnsttcore/dns/dns.go:139-151 | succeeds if and only if the name's last labels equal the suffix octet by octet up to the case of ASCII letters, and returns the labels in front |
| DnsCodec.NewName | internal/dnsttcore/dns/dns.go:73-94 | accepts exactly the names within 63 octets per label and 255 in all, although it measures with the compressing builder |
| DnsBuilder.NameErrors | internal/dnsttcore/dns/dns.go:73-94 | the error names the first label that is empty or too long, and the length only when every label is right |
| DnsCodec.FreshLength | internal/dnsttcore/dns/dns.go:87-92 | in a fresh builder a name never compresses against itself, so the measured length is the uncompressed one |
| DnsCodec.MessageBuilder.WriteName | internal/dnsttcore/dns/dns.go:426-446 | the loop over suffixes produces the octets and the cache of the specification |
| DnsCompression.PutNameReads | internal/dnsttcore/dns/dns.go:407-446 | the n+1-st name reads back from where it was written through a known number of pointers, at most n, and every cached offset still decodes to its suffix |
| DnsCompression.PutLabelsReads | internal/dnsttcore/dns/dns.go:428-445 | inside the loop the cache points at octets not yet written; when it ends it is consistent again |
| DnsCompression.PointersGoBack | internal/dnsttcore/dns/dns.go:430-434 | every emitted pointer fits 14 bits, leads strictly backward, and decodes to the suffix it replaces |
| DnsCompression.WrittenAgain | internal/dnsttcore/dns/dns.go:430-434 | a name written at an offset below 16384 takes two octets wherever it is written again |
| DnsCompression.ReadLabelsExtend | internal/dnsttcore/dns/dns.go:202-276 | octets appended later never change what an offset decodes to |
| DnsCompression.ReadLabelsLimit | internal/dnsttcore/dns/dns.go:251-254 | the pointer limit is a threshold: enough gives the name, fewer gives "too many pointers" |
| DnsCompression.ReadEndsAtNameEnd | internal/dnsttcore/dns/dns.go:242-274 | a read ends just past the first pointer or the terminator, however far pointers lead |
| DnsCodec.Reader.ReadLabels | internal/dnsttcore/dns/dns.go:202-274 | the seeking loop ends on every buffer and offset, cycles included, and agrees with the recursive decoder in result, error and final position |
| DnsCodec.Reader.ReadName | internal/dnsttcore/dns/dns.go:202-276 | as above, with the checks on the assembled name |
| DnsCodec.Reader.ReadRR | internal/dnsttcore/dns/dns.go:303-332 | reads a record or reports the first error met, as the specification does |
| DnsCodec.MessageFromWireFormat | internal/dnsttcore/dns/dns.go:336-402 | parses the whole message, maps an early end to "unexpected end" and rejects trailing octets; what that means is stated by the next three rows |
| DnsExtent.TrailingRefused | internal/dnsttcore/dns/dns.go:389-402 | whatever parses is refused as trailing once any octets follow it |
| DnsExtent.CutRefused | internal/dnsttcore/dns/dns.go:336-402 | whatever parses is refused as ending unexpectedly when cut anywhere |
| DnsExtent.SerialisedEndsExactly | internal/dnsttcore/dns/dns.go:336-526 | what was serialised parses as it stands, and neither with octets added nor with octets cut off |
| DnsGrammar.ReadsExactly | internal/dnsttcore/dns/dns.go:202-276 | the name decoder accepts exactly the encodings of section 4.1.4 of RFC 1035 with at most as many pointers as allowed, and reads the one name encoded there |
| DnsGrammar.ReservedRefused | internal/dnsttcore/dns/dns.go:261-264 | the two reserved label types are refused as such |
| DnsCodec.MessageBuilder.WriteMessage | internal/dnsttcore/dns/dns.go:478-514 | fails exactly when a count or an RDATA length does not fit 16 bits, and otherwise appends the specified octets |
| DnsCodec.WireFormat | internal/dnsttcore/dns/dns.go:519-526 | the octets returned parse back to the message exactly when no chain exceeds the limit |
| DnsRoundTrip.RoundTrip | internal/dnsttcore/dns/dns.go:202-402 | for every message with valid names and fitting counts, parsing its wire form returns it with nothing left over if and only if no name is laid out behind more than ten pointers; otherwise it reports too many pointers |
| DnsRoundTrip.ElevenNamesSuffice | internal/dnsttcore/dns/dns.go:13-15 | a message with at most eleven names always round-trips |
| DnsBoundary.StaircaseBoundary | internal/dnsttcore/dns/dns.go:252-254 | eleven is tight: the family "1", "2.1", "3.2.1", … round-trips up to eleven names and fails from twelve on |
| DnsBoundary.ParsedIsEncodable | internal/dnsttcore/dns/fuzz.go:13-23 | whatever parses can be serialised without error or panic |
| DnsBoundary.ReparseIsStable | internal/dnsttcore/dns/fuzz.go:13-23 | serialising and parsing again gives the same message, under the same boundary |
| DnsTxt.TxtRoundTrip | internal/dnsttcore/dns/dns.go:533-575 | any octets, the empty string included, survive TXT encoding |
| DnsTxt.DecodesExactly | internal/dnsttcore/dns/dns.go:533-551 | decoding accepts exactly one or more character-strings, and joins them |
| DnsTxt.EncodedLength | internal/dnsttcore/dns/dns.go:558-575 | encoding adds one length octet per 255 octets or part, and one for the empty string |
| DnsTxt.EncodeRDataTXT | internal/dnsttcore/dns/dns.go:558-575 | the splitting loop computes the encoding |
| DnsTxt.DecodeRDataTXT | internal/dnsttcore/dns/dns.go:533-551 | the joining loop computes the decoding, errors included |
| Base32.DecodeInverts | internal/dnsttclient/dns.go:42-43 | base32 without padding is inverted by decoding, also when letters change case on the way |
| Base32.EncodeAt | internal/dnsttclient/dns.go:42-43 | each symbol is the letter that the alphabet of RFC 4648 gives to the next five bits of the data |
| TunnelQuery.Chunks | internal/dnsttclient/dns.go:233-244 | cuts greedily into non-empty pieces that join to the input |
| TunnelQuery.ChunkedProperties | internal/dnsttclient/dns.go:231-244 | pieces are non-empty, at most n long, all but the last exactly n, and lose nothing |
| TunnelQuery.DnsNameCapacity | internal/dnsttclient/main.go:69-85 | the subtracting loop and the two truncating divisions |
| TunnelQuery.CapacityExact | internal/dnsttclient/main.go:67-85 | for every valid domain, a payload fits in one name under it if and only if it is no longer than the capacity |
| TunnelQuery.Send | internal/dnsttclient/dns.go:282-346 | which of the length errors is returned; otherwise the exact octets sent, from the client identifier, the padding and the packet |
| TunnelQuery.QueryIsOctets | internal/dnsttclient/dns.go:313-340 | the serialised query octet by octet: header, the name written out, type and class, and the EDNS record |
| TunnelQuery.UpstreamLossless | internal/dnsttclient/dns.go:246-346 | with an MTU of at least 80 every packet up to the MTU is accepted, and parsing, trimming, joining, decoding and splitting recover the client identifier and exactly that packet, or none for a poll |
| TunnelResponse.NextPacket | internal/dnsttclient/dns.go:138-154 | returns a complete packet or an error, and end of file only when nothing at all was left |
| TunnelResponse.Receive | internal/dnsttclient/dns.go:185-228 | one turn of the receive loop delivers the packets of the datagram, and permits a poll if and only if there was one; which datagrams deliver anything is the next row |
| TunnelResponse.DeliveredExactly | internal/dnsttclient/dns.go:102-131 | a datagram delivers the packets of its TXT record if its first 4096 octets are a whole response without error code whose one answer is that record under the domain, and nothing otherwise |
| TunnelResponse.OversizeIsLost | internal/dnsttclient/dns.go:187-203 | a response of more than 4096 octets is lost as a whole |
| TunnelResponse.AnyPayload | internal/dnsttclient/dns.go:138-154 | any payload is the framing of the packets read from it followed by an incomplete one |
| TunnelResponse.DownstreamDelivery | internal/dnsttclient/dns.go:102-154 | from any response that carries a framing and fits the buffer, exactly the framed packets are delivered in order; a framing cut at any octet loses only the packets past the cut |
| TunnelResponse.CompleteIsMaximal | internal/dnsttclient/dns.go:134-154 | "the packets before the cut" is the largest number that fits |
| PollSchedule.Scheduler.Permit | internal/dnsttclient/dns.go:222-227 | a permit is added if fewer than sixteen are waiting |
| PollSchedule.Scheduler.Turn | internal/dnsttclient/dns.go:354-396 | one turn of the send loop: a permitted poll or a packet with data takes one waiting permit; an expiry doubles the delay up to 10 seconds, anything else resets it to 500 ms |
| PollSchedule.PollAccounting | internal/dnsttclient/dns.go:26-39 | in every run at most 16 permits wait: the data-carrying responses less the polls they permitted, the data packets sent while one waited and the responses that found 16; and the delay is the smaller of 500·2^k and 10000 ms after k expiries in a row |
| WeightedList.NextToken | internal/dnsttclient/weightedlist.go:40-64 | the tokenizer with its index and escapes, and the panic of a string that ends in the middle of an escape as a token |
| WeightedList.ParseWeightedList | internal/dnsttclient/weightedlist.go:25-160 | for every string, the state machine computes the grammar's parse, with the same errors and the same panic |
| WeightedList.AcceptsExactly | internal/dnsttclient/weightedlist.go:22-24 | the parser accepts exactly the token sequences of the documented grammar, with the entries they spell |
| WeightedList.WeightsRefused | internal/dnsttclient/weightedlist.go:124-142 | a weight that is no 32-bit decimal number is refused, and so is a second asterisk |
| WeightedList.EntryPanics | internal/dnsttclient/weightedlist.go:53-58 | the parser panics if and only if the string ends in the middle of an escape and what precedes its last word is refused only for ending where a word is needed; so a list refused earlier never panics |
| WeightedList.PrintRoundTrip | internal/dnsttclient/weightedlist.go:15-24 | every non-empty list with non-empty names parses back from its escaped printing, with or without weights of 1 |
| WeightedList.SampleWeighted | internal/dnsttclient/weightedlist.go:182-201 | returns the index whose share of the total contains the random number; the last panic is unreachable |
| WeightedList.ChosenOnce | internal/dnsttclient/weightedlist.go:194-199 | exactly one index is chosen |
| WeightedList.Preimages | internal/dnsttclient/weightedlist.go:179-201 | each index is chosen by exactly as many numbers as its weight |
| RemoteMap.Inner.Swap | internal/dnsttcore/turbotunnel/remotemap.go:151-155 | exchanges two heap entries and keeps index and heap in step |
| RemoteMap.Inner.Push | internal/dnsttcore/turbotunnel/remotemap.go:157-166 | adds a record whose address is new |
| RemoteMap.Inner.Pop | internal/dnsttcore/turbotunnel/remotemap.go:168-177 | removes the last heap entry and its index entry |
| RemoteMap.Inner.Lookup | internal/dnsttcore/turbotunnel/remotemap.go:117-136 | returns the same record for as long as it stays in the map, creates one otherwise, marks it seen, and changes no other record |
| RemoteMap.Inner.RemoveExpired | internal/dnsttcore/turbotunnel/remotemap.go:107-112 | removes and closes exactly the records not seen for the timeout |
| RemoteMap.Replay | internal/dnsttcore/turbotunnel/remotemap.go:95-177 | over every sequence of lookups and expiries at whatever times: the structure agrees with a plain map in addresses, times and records; two lookups return one record if and only if the plain run gives them one birth; a record is closed exactly when it has left the map; no panic is met |
| RemoteMap.SameRecordIff | internal/dnsttcore/turbotunnel/remotemap.go:105-136 | two lookups of an address with none in between share a record if and only if no expiry in between found it unseen for the timeout |
| HeapOrder.SiftUpStep | internal/dnsttcore/turbotunnel/remotemap.go:124-133 | one exchange of sifting up moves the only edge out of order upward |
| HeapOrder.SiftDownStep | internal/dnsttcore/turbotunnel/remotemap.go:109-124 | one exchange of sifting down moves the disorder downward, also from a position being fixed |
| HeapOrder.RootIsLeast | internal/dnsttcore/turbotunnel/remotemap.go:107-108 | the first heap entry is an oldest record, so expiry may stop at it |
| Routes.LedgerForward | internal/routes/routes.go:44-52 | a successful command and its journalled undo keep the books: table = first table adjusted by exactly what is held |
| Routes.LedgerUndo | internal/routes/routes.go:71-82 | any held record can be undone at any time and in any order, and then no longer counts |
| Routes.LedgerInterleaved | internal/routes/routes.go:25-82 | setups, blocks and cleanups interleaved command by command, in any number and order, keep the books, and once nothing is held the first table is back |
| Routes.LedgerEmpty | internal/routes/routes.go:71-82 | with nothing held the first table is back |
| Routes.ReplaceRestoredIff | internal/routes/routes.go:47-52 | undoing a replaced half route restores the table if and only if the route was not there before |
| Routes.UndoAllSettles | internal/routes/routes.go:71-82 | undoing one cleanup last-first leaves exactly what the other holders record |
| RouteCommands.Cleanup.Run | internal/routes/routes.go:71-82 | walks the journal backwards; if nothing is refused the table is the undone one |
| RouteCommands.Resolve | internal/routes/routes.go:416-441 | keeps each address of the family once |
| RouteCommands.AddBypass | internal/routes/routes.go:320-333 | whichever adds fail, journal and table account for each other; distinct free addresses all succeed when nothing is refused |
| RouteCommands.Apply | internal/routes/routes.go:25-69 | whichever route commands fail, the returned cleanup accounts for every change; if none fails and everything is to be routed, IPv4 bypass addresses keep the old gateway if there was one, IPv6 ones if IPv6 is tunnelled and a gateway or device was known, all other addresses go into the tunnel unless a longer route existed, and IPv6 is untouched exactly when it is neither tunnelled nor blocked |
| RouteCommands.ApplyIPv6 | internal/routes/routes.go:161-181 | the IPv6 part: left alone only when leaks are allowed; otherwise, if nothing fails, both halves lead into the tunnel, with bypass routes exactly when IPv6 is tunnelled and a gateway or device is known |
| RouteCommands.BlockLinux | internal/routes/killswitch.go:68-98 | the cleanup accounts for every change; if no command fails, a family with a default gateway keeps it for the allowed addresses, keeps other routes, and leaves every other address without a route; a family without one is untouched |
| RouteCommands.SplitRouting | internal/routes/routes.go:46-52 | the same by longest-prefix match on the intended table, address by address |
| RouteCommands.BlockRouting | internal/routes/killswitch.go:68-98 | the same by longest-prefix match on the intended table |
| RouteCommands.StartSequence | internal/engine/manager.go:108-305 | a block at admission, a setup, the release at commit: if nothing fails, the bypass addresses keep the old gateway exactly when no block was held during the setup; otherwise they end up in the tunnel |
| RouteRuns.RoutesAccountedFor | internal/engine/manager.go:283-307 | in every run with at most one start in flight, others being attempted and refused meanwhile, and whichever forward commands fail, the table is the first one adjusted by what the cleanups hold, and the first one when none is held |
| RouteRuns.StopSection | internal/engine/manager.go:711-766 | a stop undoes the held routes, then blocks or unblocks, and the books stay right |
| RouteRuns.SyncSection | internal/engine/manager.go:799-829 | synchronising the kill switch undoes, rebuilds or keeps the block, and the books stay right |
| Manager.ConnectionManager.SyncKillSwitchLocked | internal/engine/manager.go:799-829 | the fields after synchronising and the calls made into the routes package, in order; what they have in force is `KillSwitchRuns.KillSwitchInForce` |
| Manager.ConnectionManager.AdmitSection | internal/engine/manager.go:98-113 | a start is admitted if and only if nothing is running or connecting |
| Manager.ConnectionManager.CommitSection | internal/engine/manager.go:296-307 | a start becomes running only if its context is alive and the manager is connecting with its profile |
| Manager.ConnectionManager.StopSection | internal/engine/manager.go:487-494 | the live context is cancelled, held routes are undone, the status becomes idle, the kill switch is synchronised |
| Manager.ConnectionManager.KillSwitchSection | internal/engine/manager.go:775-788 | the flag and the allowed hosts change, then the block is synchronised |
| Manager.ConnectionManager.EnsureCurrent | internal/engine/manager.go:124-134 | answers exactly the commit test, without changing anything |
| Manager.ConnectionManager.MarkReconnecting | internal/engine/manager.go:593-601 | marks only if not stopped by the user and not marked already |
| Manager.Sync | internal/engine/manager.go:799-829 | afterwards the block is held exactly when the switch is on and no full-device tunnel runs, with the current hosts |
| ManagerRuns.AlwaysSafe | internal/engine/manager.go:92-134 | in every interleaving, at every release of the mutex: at most one admitted start has a live context and it is the one that can be cancelled; never running and connecting; one reconnect loop; kill switch agreement |
| ManagerRuns.CurrentIffOwner | internal/engine/manager.go:124-134 | the test by profile identifier is true for a pending start exactly when it owns the manager |
| ManagerRuns.OvertakenNeverRuns | internal/engine/manager.go:296-314 | a start that is pending when a stop comes never becomes running, whatever happened before the stop and whatever happens after it |
| KillSwitchRuns.KillSwitchInForce | internal/engine/manager.go:771-829 | in every interleaving, the calls made so far leave a block in force exactly when the platform can block, the switch was last turned on and no start that became running unstopped carries all traffic; it is for the hosts of the latest admission, commit or switch; no call blocks twice or undoes what is not in force |
| KillSwitchRuns.FieldsRemember | internal/engine/manager.go:98-112 | the switch, the last profile, the allowed hosts and the manual stop are what the history of the run says |
| KillSwitchRuns.SetupsInForce | internal/engine/manager.go:291-293 | in every interleaving, the route setups not undone are the one whose cleanup is held and those whose cleanup was overwritten |
| KillSwitchRuns.OverlapLosesCleanup | internal/engine/manager.go:291-293 | two overlapping starts: the first one's late cleanup overwrites the second one's, and a setup is never undone |
| KillSwitchRuns.ReconnectExactly | internal/engine/manager.go:593-606 | a reconnect loop is entered exactly when none is and the user has not stopped the connection since the last admitted start |
| PayloadConn.ReadPayloadLine | internal/engine/payload.go:153-180 | reads a line octet by octet up to a newline, the limit or the end, keeping what it read when it fails |
| PayloadConn.DiscardFixedLengthBody | internal/engine/payload.go:212-232 | reads of any size together drop exactly the body, up to 1 MiB |
| PayloadConn.DiscardChunkedBody | internal/engine/payload.go:234-259 | the chunk loop, its limits and its early exits |
| PayloadConn.ConsumeTrailingHeaders | internal/engine/payload.go:261-273 | trailer lines up to a blank one |
| PayloadConn.ConsumeHeadersAndBody | internal/engine/payload.go:182-210 | headers, then the body they advertise |
| PayloadConn.TakeTurn | internal/engine/payload.go:83-134 | one pass of the negotiation loop: a hand-over, a refusal, an error, or a response consumed and its status |
| PayloadConn.ConsumeNegotiation | internal/engine/payload.go:76-140 | the negotiation loop with all its outcomes |
| PayloadConn.PreloadedConn.Read | internal/engine/payload.go:34-51 | each read takes a front part of the replayed octets and then of the connection, and nothing else |
| PayloadLaws.HandsOnTheRest | internal/engine/payload.go:76-140 | after fewer than 12 well-formed responses: everything that follows is handed on unchanged if its first line is no status line, and so is a partial line cut by the deadline, unless the last status refuses; a first line ended by another failure is handed on without the part that was read, so the rest arrives unchanged if and only if no part was, and without an earlier status it is an error |
| PayloadLaws.BrokenLineIsLost | internal/engine/payload.go:97-99 | at one input: after a 200 response the octets SSH- are lost when the connection breaks behind them |
| PayloadLaws.EndHasNoText | internal/engine/payload.go:94-96 | the end of the stream is reported as an error only when nothing of the line was read, so this branch cannot be taken |
| PayloadLaws.HandsOnExactly | internal/engine/payload.go:76-140 | the same as an equation on octets |
| PayloadLaws.TwelveResponses | internal/engine/payload.go:83-139 | a twelfth response is still passed over, and what follows it is handed on unexamined |
| PayloadLaws.HandsOnASuffix | internal/engine/payload.go:76-140 | for any stream whatever, a connection handed on reads an unbroken final part of what arrived, and all of it if the first line is no status line |
| PayloadLaws.ResponseExact | internal/engine/payload.go:182-273 | a response whose body is the advertised one is consumed to its last octet and no further |
| PayloadServed.ChunkedLineRead | internal/engine/payload.go:199-201 | a Transfer-Encoding line that names chunked, in any letter case, marks the body as chunked |
| PayloadServed.OtherLineRead | internal/engine/payload.go:190-202 | a header line with any other name changes nothing |
| PayloadServed.ChunkSizeRead | internal/engine/payload.go:241-248 | a size line is read as its hexadecimal number, in any letter case and with any extension |
| PayloadServed.GreetingIsHandedOn | internal/engine/payload.go:76-259 | after fewer than 12 responses with sized or chunked bodies, as a server writes them, the SSH greeting is handed on to the last octet and nothing else |
| PayloadLaws.LongLine | internal/engine/payload.go:153-180 | a line is cut after 4096 octets |
| PayloadLaws.LongBody | internal/engine/payload.go:212-232 | of a longer body only the first mebibyte is dropped |
| PayloadLaws.HeadersAtLimit | internal/engine/payload.go:182-203 | after as many header lines as the limit the body starts, blank line or not |
| PayloadLaws.ChunksAtLimit | internal/engine/payload.go:234-259 | after as many chunks as the limit whatever follows is left |
| PayloadLaws.BadSizeEndsBody | internal/engine/payload.go:245-248 | a size line that is no number ends the body there |
| PayloadLaws.ContentLengthRead | internal/engine/payload.go:195-198 | the Content-Length line for a body of n octets is read as n |
| PayloadLaws.StatusRead | internal/engine/payload.go:108-115 | a status line of any protocol version for a code is recognised and read as that code |
| UdpgwSession.SessionTable.IdForDatagram | internal/engine/udpgw_client.go:188-210 | one call: an error without a client, otherwise the old identifier of the pair or the next one |
| UdpgwSession.Identifiers | internal/engine/udpgw_client.go:28-33 | in every run the k-th new pair has identifier 1 + k mod 65535, the counter follows, and a pair is new exactly once |
| UdpgwSession.Collisions | internal/engine/udpgw_client.go:199-206 | two pairs share an identifier exactly when their numbers differ by a multiple of 65535; no identifier is 0 |
| UdpgwSession.ClientIsLatest | internal/engine/udpgw_client.go:212-216 | an identifier leads to the client of the latest call that returned it |
| UdpgwSession.ClientOfPair | internal/engine/udpgw_client.go:188-216 | up to 65535 pairs, a pair's identifier leads to its own client |
| Datagrams.SocksRoundTrip | internal/engine/socks5.go:354-421 | parsing inverts building up to the standard text of an address, for any host: it returns the datagram unchanged if and only if the host is no address or is written as addresses are printed; building fails exactly for names over 255 octets |
| Datagrams.SocksReparse | internal/engine/socks5.go:354-421 | building inverts parsing if and only if the packet neither carries an IPv4 address in IPv6 form nor, as a name, the text of an address |
| Datagrams.AddressSentAsName | internal/engine/socks5.go:401-405 | every such name packet parses and does not come back |
| Datagrams.FillBadVPN | internal/engine/udpgw_client.go:264-297 | the buffer filled field by field is the frame; an error exactly for a host that is not the text of an address or a payload over 65535 octets |
| Datagrams.FillLegacy | internal/engine/udpgw_client.go:328-347 | the same for the legacy frame, which only IPv4 addresses can be sent in |
| Datagrams.BadVPNRoundTrip | internal/engine/udpgw_client.go:299-326 | a badvpn payload parses back to identifier, destination and data |
| Datagrams.FlagBits | internal/engine/udpgw_client.go:268-290 | in a badvpn frame the rebind bit is set exactly for a new connection and the IPv6 bit exactly for an address that is not IPv4; no other bit is |
| Datagrams.ReplyAccepted | internal/engine/udpgw_client.go:299-326 | a reply is accepted exactly if it is long enough for its address and no keep-alive, with the fields where they belong |
| Datagrams.LegacyRoundTrip | internal/engine/udpgw_client.go:329-358 | the same for the legacy layout |
| Datagrams.LegacyLayout | internal/engine/udpgw_client.go:328-347 | the legacy frame octet by octet |
| Datagrams.StreamRoundTrip | internal/engine/udpgw_client.go:229-258 | a stream of frames of either layout reads back in order as identifiers, destinations and data |
| Datagrams.FramesThenEnd | internal/engine/udpgw_client.go:229-243 | frames are read in order up to the first that is empty or cut short |
| Datagrams.ForwardedSize | internal/engine/udpgw_client.go:103-141 | an addressed datagram of n octets gives a payload of n-1 (n-13 for IPv4 in IPv6 form), so up to 65536 octets the size error is unreachable |

## Where the code differs from what one might expect

- Messages with many names can serialise into something the same code refuses to parse (`DnsBoundary.StaircaseBoundary`).
- With the kill switch on, a start that routes all traffic loses the bypass of its own servers: during the setup
  the default route is gone, so no bypass is added, and releasing the block then sends the servers into the tunnel
  (`RouteCommands.StartSequence`).
- A start stopped before it has set up its routes may overwrite the cleanup of the start that followed it, whose
  routes are then never undone (`KillSwitchRuns.OverlapLosesCleanup`).
- A DNS response longer than the receive buffer is not truncated but lost (`TunnelResponse.OversizeIsLost`).
- After exactly twelve HTTP responses the negotiation stops looking, so a thirteenth would be handed to SSH (`PayloadLaws.TwelveResponses`).
- A failure other than a timeout in the middle of a first line drops the partial line when an earlier status was seen
  (`internal/engine/payload.go:97-99`): `PayloadLaws.HandsOnTheRest` says exactly when octets are lost, and
  `PayloadLaws.BrokenLineIsLost` gives an input.
- `internal/routes/routes.go:47-52` journals a deletion for a replaced half route even if one existed before
  (`Routes.ReplaceRestoredIff`), so `RouteRuns.RoutesAccountedFor` starts from a table without half routes.
- The branch for an end of file with captured octets (`internal/engine/payload.go:94-96`) cannot be taken: a line
  cut by the end of the stream is returned as a line (`PayloadLaws.EndHasNoText`).
- A SOCKS5 packet whose domain name is the text of an address is answered with an address packet
  (`Datagrams.SocksReparse`, `Datagrams.AddressSentAsName`).
- A weighted list may panic instead of being refused (`WeightedList.EntryPanics`).

## Left out

- User interface, updater, installers, process launching, profiles and share links: input, output and thin wrappers.
- Noise, KCP, smux, TLS and HTTP transports, and the queueing packet connection: other libraries, or easier members.
- Windows and macOS route commands: the same shape as the Linux ones that are modelled.
- The locked wrapper of the peer map, its stash channels and the contents of send queues: only closing is modelled.
- Saturation of time differences at the limits of a 64-bit duration: times are unbounded integers.
- Unicode white space and case folding: text operations on lines and labels are those of ASCII.
- How IP addresses are read and printed: hosts are text, and the two library functions are parameters; the laws that need it assume that what is printed reads back and that an IPv4 address prints alike in both its forms.
- Errors returned together with octets by one read of a connection: a read returns octets or an error.
- WeightedList.SampleWeighted: a total of zero or beyond 63 bits is a precondition, because there the code panics.
- Overlapping starts in the route laws: `RouteRuns.RoutesAccountedFor` allows one start in flight, because a second one would overwrite the cleanup of the first (`internal/engine/manager.go:292`), which is then never run; `KillSwitchRuns.SetupsInForce` covers such runs.
- The commands `ip addr add` and `ip link set` (`internal/routes/routes.go:44-45` and `internal/routes/routes.go:168`): they set up the interface, are not journalled, and their effect on routes is the kernel's.
- Refused undo commands: `RouteRuns.RoutesAccountedFor` takes undo commands to succeed, because the code does not retry them.
- Route commands of a critical section count as one step in `RouteRuns`, while those of a setup interleave one by one with other sections; `Routes.LedgerInterleaved` covers the finer interleavings without the manager's fields.
- A rejected start's context is cancelled within its admission step, while the code cancels it just after releasing the mutex.
- The retry count and delays of the reconnect loop, the traffic probe and the release of process handles.
