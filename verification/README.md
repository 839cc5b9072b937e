# easynet: a verified model of its core

easynet is a TUN-based network tunnel: a client captures packets, routes them by rules either through a
framed transport to a server or through a local transparent proxy, and the server hands out virtual addresses
to its clients. This project models the parts where state lives across many steps or tasks and proves
properties over all inputs, all interleavings and whole runs.

`dafny verify dfyconfig.toml` checks everything.

| file | part of easynet |
|---|---|
| `FlowTable.dfy`, `FlowProxy.dfy` | the per-flow session table shared by the UDP and ICMP proxies, as an interleaved step system and as an object |
| `Icmp.dfy`, `IcmpProxy.dfy` | ICMP session keys, echo identifier rewriting, Internet checksum; the flow table keyed by them |
| `Codec.dfy`, `ByteCodec.dfy` | the streaming frame codec: reference parser, resumable decoder, codec object |
| `SessionTable.dfy`, `Server.dfy` | server sessions, virtual addresses, disconnects, expiry |
| `DomainLog.dfy`, `DomainCache.dfy`, `DomainNames.dfy` | the DNS-learned domain cache against a log of observations; spelling of names |
| `Rule.dfy`, `Config.dfy` | compact rules: parsing, printing, spelling, lists, validation |
| `RuleMeaning.dfy` | what rule texts say about packets, without the parser and the rule record |
| `Matcher.dfy`, `Engine.dfy` | conditions, first-match evaluation, `GEOIP,PRIVATE` as address blocks |
| `TunIo.dfy` | the TUN loop, from rule texts and DNS answers to the three packet sinks |
| `Text.dfy`, `Net.dfy`, `Wrappers.dfy`, `Subsequence.dfy` | strings, addresses, optional values, subsequences |

How the model is set up:

- Each region under a lock, each channel operation and each atomic counter update is one event; a schedule is
  any sequence of enabled events. Objects (`FlowProxy.ProxyTable`, `Server.Server`, `ByteCodec.ByteCodec`,
  `DomainCache.DomainCache`, `TunIo.TunTask`) have one method per region, proved to perform that event. The loops
  that compose them (`HandleInbound` of the proxy, `HandleTcpConnection` of the server) take as input which other
  tasks the runtime lets run at each point in between, and are proved for every such choice.
  These may be older tasks of the same peer address too: their late disconnects are among the steps, and their
  inserts are counted separately (`Server.OtherCommits`). There are none when the peer has one connection at a time
  (`Server.OneConnectionHasNoOthers`).
- A channel sender is the index of the session task that owns the receiver. A send fails exactly when that task
  has ended.
- The ICMP proxy's early return depends only on the configured upstream address
  (src/transparent_proxy/mod.rs:46-52), so it is the constant `refuses` of a table: it is false for UDP and for
  ICMP with no or an IPv4 upstream, and true for ICMP with an IPv6 upstream.
- Inputs from outside: fresh session ids (never issued before), clock readings (one per DNS answer), which entry a map iteration
  reaches first, whether a socket send succeeds. Code outside the model enters as function parameters: the
  protobuf message encoding, IPv4 and DNS packet parsing, CIDR and address text parsing, the country database.
- Integer widths are explicit where they matter: the 32-bit frame header and its truncating cast, the 32-bit
  client counter truncated to a byte, the 16-bit wrapping ICMP identifier, 16-bit ports.

Where the code and its own documentation differ, the model follows the code:

- The repository's README promises that a reconnecting client keeps its virtual address. The code removes the
  entry when a connection ends, so a client keeps its session exactly when its id is still in the table
  (`SessionTable.ReconnectKeepsSessionIffPresent`).
- `RulesConfig.default_action` is set but never read; a packet that no rule matches is sent directly
  (src/rules/engine.rs:52).

Properties that turned out false of the code, each with a reachable counterexample and the exact condition:

- Live sessions can share a virtual address (`SessionTable.CollisionIsReachable`); they do exactly when their
  allocation indices agree modulo 256 (`SessionTable.SharedAddressIffCongruent`, `SessionTable.RoutingDeterminism`).
- A disconnect can leave entries of its address behind (`SessionTable.LeftoverIsReachable`); it leaves none exactly
  when there was at most one (`SessionTable.DisconnectRemovesOne`).
- A refusing ICMP proxy keeps map entries without sessions (`FlowTable.StaleEntryIsReachable`); an entry has its
  session exactly unless that session's receiver is gone, which never happens without refusal
  (`FlowTable.EntriesAreUnremovedSessions`).
- A message of 2^32 bytes does not survive the codec under a limit that admits it (`Codec.LongMessageIsLost`); a
  message survives exactly if its encoding is shorter (`Codec.RoundTripIffLengthFits`).
- The cache's normal form is not idempotent (`DomainNames.FormIsNotIdempotent`); it is exactly unless
  the trimmed name has a blank followed only by dots (`DomainNames.FormIsStable`).
- Printing and parsing a rule value with two conditions loses the second (`Rule.SecondConditionIsLost`); it is the
  identity exactly for `MATCH` and for one field whose value has canonical characters
  (`Rule.RoundTripIffWellFormed`).

## Model

| member | source | states |
|---|---|---|
| FlowTable.UnremovedSessionsOwnTheirEntry | src/transparent_proxy/icmp_proxy.rs:69-91 | in every interleaving of either proxy, at most one session per key has not removed itself, and it is the map's entry for the key, so removal by key never hits another session's entry |
| FlowTable.EntriesAreUnremovedSessions | src/transparent_proxy/udp_proxy.rs:45-68 | in every interleaving of either proxy, map entries correspond one-to-one with sessions that have not executed their removal, apart from entries whose receiver is gone, which a non-refusing proxy never has |
| FlowTable.PurgeIsNoOp | src/transparent_proxy/udp_proxy.rs:66-68 | in every UDP interleaving, the dispatcher's removal after a failed send deletes nothing |
| FlowTable.PurgeRemovesOnlyDeadEntry | src/transparent_proxy/icmp_proxy.rs:89-91 | with or without early returns, that removal deletes at most the entry of its own key, and only one whose receiver is gone |
| FlowTable.StaleEntryIsPurged | src/transparent_proxy/icmp_proxy.rs:69-91 | after any run, once the next packet for the key of an entry whose receiver is gone has been accepted, the packet's send fails and a purge must follow, whatever events come in between; the purge removes the entry, and the packet after it spawns a new session |
| FlowTable.StaleEntryIsReachable | src/transparent_proxy/icmp_proxy.rs:154-165 | a refusing ICMP proxy reaches a state with an entry but no session, so the UDP correspondence does not hold for it |
| FlowTable.CounterIsExact | src/transparent_proxy/icmp_proxy.rs:154-166 | in every reachable state the activity counter is the number of tasks between increment and decrement; it never underflows, is zero when all tasks have settled, and stays zero through early returns |
| FlowTable.HandedIsSubsequenceOfAccepted | src/transparent_proxy/udp_proxy.rs:42-139 | over all successive sessions of a flow, packets handed to the outbound socket are an order-preserving, duplicate-free subsequence of the accepted ones; while no session of the flow has stopped, handed, queued and in-hand packets are exactly the accepted ones in order |
| FlowTable.HandedWasAccepted | src/transparent_proxy/icmp_proxy.rs:69-91 | in every run, whatever a session hands over the dispatcher accepted under that session's key |
| FlowTable.CompleteDeliveryIsPossible | src/transparent_proxy/udp_proxy.rs:29-108 | no loss is forced: for every list of packets of a flow there is a schedule with one session that hands over all of them |
| FlowTable.SentPacketCanBeLost | src/transparent_proxy/udp_proxy.rs:66-164 | a successful send is no delivery: a schedule in which the packet goes to a session that has already removed itself and is lost, although the dispatcher saw no error |
| FlowTable.RunInv | src/transparent_proxy/udp_proxy.rs:29-70 | the table invariant and the counter equation hold after every schedule |
| FlowTable.TableInvStep | src/transparent_proxy/udp_proxy.rs:45-68 | every event keeps the table invariant: entries point at live or refused tasks of their key, unremoved tasks are entries, the dispatcher's sender is the entry of its key if there is one |
| FlowTable.CounterStep | src/transparent_proxy/udp_proxy.rs:85 | every event keeps the counter equal to the number of counted tasks |
| FlowTable.FlowInvStep | src/transparent_proxy/udp_proxy.rs:99-139 | every event keeps a flow's packets accounted for |
| FlowProxy.ProxyTable.constructor | src/transparent_proxy/udp_proxy.rs:24-27 | a new table is the initial state |
| FlowProxy.ProxyTable.LookUpOrSpawn | src/transparent_proxy/udp_proxy.rs:45-64 | clone the sender of a key, or insert one and spawn its session, in one locked region |
| FlowProxy.ProxyTable.SendPayload | src/transparent_proxy/udp_proxy.rs:66 | the payload is queued, or the send fails because the receiver is gone |
| FlowProxy.ProxyTable.PurgeKey | src/transparent_proxy/udp_proxy.rs:67 | removes the key; a non-refusing proxy's map does not change |
| FlowProxy.ProxyTable.BeginSession | src/transparent_proxy/icmp_proxy.rs:154-166 | the session counts itself, or returns early without removing its key |
| FlowProxy.ProxyTable.RelayPacket | src/transparent_proxy/udp_proxy.rs:101-108 | one queued packet goes out, or the send error ends the relay loop |
| FlowProxy.ProxyTable.StopSession | src/transparent_proxy/udp_proxy.rs:129-137 | the relay loop ends |
| FlowProxy.ProxyTable.RemoveOwnKey | src/transparent_proxy/udp_proxy.rs:139 | the removal by key deletes this session's entry |
| FlowProxy.ProxyTable.Uncount | src/transparent_proxy/udp_proxy.rs:141-153 | the counter goes down by one and not below zero |
| FlowProxy.ProxyTable.EndTask | src/transparent_proxy/udp_proxy.rs:164 | the receiver is dropped last |
| FlowProxy.ProxyTable.SessionTurn | src/transparent_proxy/udp_proxy.rs:72-164 | a turn of a session task is exactly one of its events, unless it is over or waits for a packet, and none of the dispatcher's |
| FlowProxy.ProxyTable.HandleDatagram | src/transparent_proxy/udp_proxy.rs:42-68 | one turn of the dispatcher loop is look-up or spawn, send, and a purge exactly if the send failed, whatever session steps come in between, and accepts this one packet; the send to an entry whose receiver is gone does fail, and after a failed send the key is not in the map |
| FlowProxy.ProxyTable.HandleInbound | src/transparent_proxy/udp_proxy.rs:29-70 | the dispatcher loop is a schedule of the step system, whatever session steps come in between, and accepts exactly the datagrams that the filters allow, in order |
| Icmp.EchoIsTransparent | src/transparent_proxy/icmp_proxy.rs:356-415 | for a request of any length with a full header, the message restored from any reply to the rewritten request is byte for byte the reply to the original request, and its checksum verifies |
| Icmp.SessionIsTransparent | src/transparent_proxy/icmp_proxy.rs:321-354 | for every packet with the session's key the packet built for the client carries the reply to that very packet, from target to client, with the reply's hop limit if it came behind an ICMP header and 64 if it came bare |
| Icmp.RequestNeedsHeader | src/transparent_proxy/icmp_proxy.rs:356-381 | a request is rewritten exactly if it has eight bytes; an echo request gets the proxy identifier in its fifth and sixth byte and a checksum that verifies, and nothing else changes; other types pass as they are |
| Icmp.ReplyIsRestored | src/transparent_proxy/icmp_proxy.rs:383-415 | which replies are errors, which pass as they are, and that an echo reply with the session's identifier gets the client's identifier and a checksum that verifies, with nothing else changed |
| Icmp.KeyOfPacket | src/transparent_proxy/icmp_proxy.rs:105-143 | exactly the packets of protocol 1 with four bytes are accepted, keyed by addresses, type, code and, for echo messages of eight bytes, the identifier in the fifth and sixth byte; the others are refused as not ICMP or as malformed |
| Icmp.ForeignReplyIsRefused | src/transparent_proxy/icmp_proxy.rs:288-290 | session j sends identifier 0x4000 + j modulo 65536; a reply to another session's request is passed on exactly when the two sessions are congruent modulo 65536, and is an identifier error otherwise |
| Icmp.OnlyOwnRepliesAreDelivered | src/transparent_proxy/icmp_proxy.rs:321-354 | whatever arrives, an echo reply is delivered only if it carried the session's own proxy identifier, and then its checksum verifies |
| IcmpProxy.HandedPacketsHaveTheirKey | src/transparent_proxy/icmp_proxy.rs:48-91 | in every run of the proxy, every packet a session hands over parses to that session's key |
| IcmpProxy.EveryRunIsTransparent | src/transparent_proxy/icmp_proxy.rs:203-240 | so in every run every answered echo request of every session comes back to its client as the reply to what it sent, with a checksum that verifies |
| Icmp.FilledVerifies | src/transparent_proxy/icmp_proxy.rs:371 | a filled checksum verifies (section 1 of RFC 1071), for every message length, odd ones included; it stands in the third and fourth byte, is all ones only for an otherwise zero message, and nothing else changes |
| Icmp.VerifiesIsDivisible | src/transparent_proxy/icmp_proxy.rs:371 | a checksum verifies exactly if the bytes, those at even positions counted 256 times, add up to a positive multiple of 65535 |
| Icmp.FoldIsModular | src/transparent_proxy/icmp_proxy.rs:371 | end-around carry preserves the sum modulo 65535 and distinguishes zero |
| Icmp.RewriteEchoRequest | src/transparent_proxy/icmp_proxy.rs:356-381 | the in-place rewrite is the request rewriting proved transparent; on error the bytes are untouched |
| Icmp.RewriteEchoReply | src/transparent_proxy/icmp_proxy.rs:383-415 | the in-place rewrite is the reply rewriting proved transparent; on error the bytes are untouched |
| Codec.ChunkingIsIrrelevant | src/codec/codec.rs:120-166 | for every byte stream and every split into reads, draining the decoder gives the messages, first error and remainder of the one-shot parser |
| Codec.DrainIsParse | src/codec/codec.rs:120-166 | draining from any resumable state is parsing the bytes with the pending header put back |
| Codec.DecodeIsFirstFrame | src/codec/codec.rs:120-166 | one call of the decoder takes exactly the first frame off those bytes, or nothing |
| Codec.DecodeProgress | src/codec/codec.rs:120-166 | every message and every error consumes at least one buffered byte and leaves the head state; a decoder that wants more holds less than a header or less than the pending body |
| Codec.BufferIsBounded | src/codec/codec.rs:132-151 | after any reads without error the buffer is shorter than a header, or than a pending body that is within the limit |
| Codec.StreamRoundTrip | src/codec/codec.rs:87-112 | every accepted message list, under any limit that fits the 32-bit header, is decoded back from its frames cut anywhere, ending in the head state with an empty buffer, although encoder and decoder bound different lengths |
| Codec.RoundTripIffLengthFits | src/codec/codec.rs:106 | under any limit, an accepted message survives exactly if its encoding is shorter than 2^32 bytes |
| Codec.LongMessageIsLost | src/codec/codec.rs:106 | a message of exactly 2^32 bytes is accepted under a limit that allows it and does not come back |
| Codec.ParseResumes | src/codec/codec.rs:120-166 | parsing can stop after any prefix and resume with what is left |
| Codec.HeaderIsLittleEndian | src/codec/codec.rs:106-129 | the header is written modulo 2^32 and read with the least significant byte first |
| Codec.DecodeDecodes | src/codec/codec.rs:120-166 | what one call does with the bytes themselves, in every state and at every length |
| ByteCodec.ByteCodec.constructor | src/codec/codec.rs:60-65 | a codec with the given limit, waiting for a header |
| ByteCodec.ByteCodec.New | src/codec/codec.rs:43-57 | a codec with the limit of 1,048,576 bytes, waiting for a header |
| ByteCodec.ByteCodec.Encode | src/codec/codec.rs:87-112 | appends four bytes that give the body's length modulo 2^32, least significant first, and then the body; or appends nothing and fails exactly when these exceed the limit |
| ByteCodec.ByteCodec.DecodeNext | src/codec/codec.rs:120-166 | one call waits for four bytes, takes them as a length, least significant first, refuses one over the limit, waits for that many bytes and decodes them; it thereby takes the first frame off the logical bytes, keeps the state resumable and consumes bytes whenever it does not ask for more |
| SessionTable.OneAddressPerSession | src/server.rs:115-160 | in every interleaving of handshakes, disconnects and sweeps, whatever reply, pending handshake or entry names a session id at one moment agrees on its address with whatever reply, pending handshake or entry names it then or at any later moment |
| SessionTable.RunInv | src/server.rs:115-160 | after every schedule ids are distinct, the counter matches the allocations, and every id is bound to the address of its allocation |
| SessionTable.AddressIsItsAllocation | src/server.rs:272-276 | in every run the k-th id carries the address 10.0.0.((2 + k) mod 256), in every reply, pending handshake and entry |
| SessionTable.SharedAddressIffCongruent | src/server.rs:272-276 | two sessions, live, pending or told to a client, share an address exactly when their allocation indices agree modulo 256 |
| SessionTable.FirstAddressesAreSafe | src/server.rs:25 | in every run of up to 253 allocations no two ids that are live, pending or told to a client share an address, routing is deterministic, and no such address has host byte 0, 1 or 255 |
| SessionTable.ReservedHostByteIff | src/server.rs:272-276 | a session's address has one of these host bytes exactly if its allocation is one of the last three of its block of 256 |
| SessionTable.RoutingDeterminism | src/server.rs:180-208 | the client picked for a packet is independent of map order exactly when no two live sessions are congruent modulo 256 |
| SessionTable.NarrowSpanRoutesDeterministically | src/server.rs:180-208 | while live sessions span fewer than 256 allocations, every packet has at most one client |
| SessionTable.CollisionIsReachable | src/server.rs:272-276 | after 257 handshakes two live sessions share an address and routing depends on map order |
| SessionTable.ReconnectKeepsSessionIffPresent | src/server.rs:115-130 | a reconnecting client keeps its id exactly if the entry is still there, and its address exactly in that case or when the next allocation is congruent |
| SessionTable.DisconnectRemovesOne | src/server.rs:168-178 | a disconnect removes exactly one entry of its address if there is one and never another's; none of its address is left exactly when there was at most one |
| SessionTable.EntrySurvives | src/server.rs:157-178 | over every run in which its own address does not disconnect and its id is not inserted again, an entry is there in the end, unchanged, exactly if every sweep kept it, so a session moved to a new address survives late disconnects of the old one |
| SessionTable.ClosedAddressStaysClear | src/transport/tcp.rs:111-173 | once a connection with at most one entry has run its final disconnect, its address stays out of the table and of all pending handshakes until it connects again |
| SessionTable.LeftoverBound | src/transport/tcp.rs:111-173 | in every interleaving, after a disconnect of an address it has no entry left, or fewer than it had before plus the inserts made from it, so a connection that inserted once leaves none |
| SessionTable.LeftoverIsReachable | src/transport/tcp.rs:117-128 | a connection that handshakes twice without a session id does leave an entry behind |
| SessionTable.LifetimeIsOneHour | src/server.rs:278-306 | over every run with a clock that never goes back, a session inserted at time t and neither disconnected nor inserted again is there after a later sweep exactly if it comes less than 3600 seconds after t, whatever sweeps came before |
| SessionTable.SweepKeepsExactlyTheRecent | src/server.rs:282-301 | with a clock that never goes back, a sweep keeps exactly the entries inserted less than 3600 seconds ago, unchanged |
| Server.Server.constructor | src/server.rs:24-27 | an empty table with the counter at 2 |
| Server.Server.BuildSessionId | src/server.rs:29-31 | an id that was never issued |
| Server.Server.AllocateVirtualIp | src/server.rs:272-276 | the address is 10.0.0 and the counter's low byte, and the counter wraps at 2^32 |
| Server.Server.BeginHandshake | src/server.rs:115-136 | reuses the presented session or issues a new one, in one step |
| Server.Server.SendReply | src/server.rs:138-147 | the reply names the pending id and address; a failed send ends the handshake |
| Server.Server.CommitHandshake | src/server.rs:149-160 | inserts or overwrites the entry of the handshake's id |
| Server.OneConnectionHasNoOthers | src/transport/tcp.rs:190 | in a run in which no other handshake has the peer's address, nobody else inserts from it |
| Server.Server.TheirTurn | src/transport/tcp.rs:190 | another connection, of whatever address, or the expiry loop makes its step whenever it has one; the connection's own handshake stays as it is, and its peer gains an entry only by an insert from its address |
| Server.Server.HandleHandshake | src/server.rs:72-166 | whatever other tasks do between its steps, a handshake keeps a session id that is in the table with its address and otherwise takes the next one, 10.0.0 and the counter's low byte, and after its insert the table holds exactly the id and address it told the client; it adds at most one entry of the peer, and none if the reply failed |
| Server.Server.HandleMessage | src/transport/tcp.rs:116-143 | whatever other tasks do before and during it, a message leaves no handshake of the connection pending and adds at most one entry of the peer's address, only for a handshake whose reply was sent, which does leave the peer an entry; a disconnect leaves it none or fewer than before plus what others inserted from its address; other messages add no step |
| Server.Server.HandleTcpConnection | src/transport/tcp.rs:104-174 | whatever other tasks do in between, a connection is a legal schedule that ends in a disconnect of its peer; afterwards the peer has no entry, or fewer than before plus the number of handshakes whose reply was sent and of inserts that others made from its address |
| Server.Server.HandleDisconnect | src/server.rs:168-178 | removes exactly one entry of the address if there is one, in one step |
| Server.Server.CleanupExpired | src/server.rs:282-301 | keeps exactly the entries seen less than 3600 seconds ago and not in the future, unchanged |
| Server.DestinationIsRead | src/server.rs:40-53 | the destination is what stands at offset 16 of a packet of version 4 with at least 20 bytes, and absent otherwise |
| Server.Server.PickClient | src/server.rs:180-192 | picks a client of the packet's destination if there is one, the only one when routing is deterministic, and none for packets without an IPv4 destination |
| DomainLog.LookupAgreesWithLog | src/rules/domain_cache.rs:23-60 | in every run with a clock that never goes back, a lookup returns exactly the normal forms of the names that observations give the address: with a nonzero time to live that has not run out and no later observation of the same name; each once, and no address keeps an empty list |
| DomainLog.LiveNamesAreLive | src/rules/domain_cache.rs:23-41 | such a name is exactly one whose latest counting insert has not expired |
| DomainLog.ExtraLookupsAreInvisible | src/rules/domain_cache.rs:43-60 | runs with the same inserts give every later lookup the same set, whatever lookups happened in between |
| DomainLog.InsertRefines | src/rules/domain_cache.rs:23-41 | an insert keeps the cache a refinement of the log |
| DomainLog.PurgeRefines | src/rules/domain_cache.rs:49-57 | lazy purging loses nothing that could still be found |
| DomainLog.PurgeIsExact | src/rules/domain_cache.rs:43-60 | a lookup leaves exactly the unexpired entries of its own address, in the order it returns their names, and every other address as it was |
| DomainLog.UpsertKeepsOrder | src/rules/domain_cache.rs:35-40 | a refreshed name keeps its place and a new one goes to the end |
| DomainLog.FoundIsLive | src/rules/domain_cache.rs:43-60 | what a lookup returns is the set of live names of the log, without duplicates |
| DomainCache.DomainCache.constructor | src/rules/domain_cache.rs:19-21 | an empty cache refines the empty log |
| DomainCache.DomainCache.Find | src/rules/domain_cache.rs:35 | the first entry of a domain |
| DomainCache.DomainCache.InsertInto | src/rules/domain_cache.rs:23-41 | the search-then-update code is the insert that refines the log |
| DomainCache.DomainCache.InsertName | src/rules/domain_cache.rs:23-41 | refreshes or appends the entry in place and keeps the cache a refinement of the log |
| DomainCache.DomainCache.LookUp | src/rules/domain_cache.rs:43-60 | returns exactly the live names of the log and purges only its own address |
| DomainCache.DomainCache.ObserveAnswers | src/rules/domain_cache.rs:75-85 | learns the address answers of a response in order, each at its own clock reading, and keeps the cache a refinement of the log |
| DomainNames.CaseIsIrrelevant | src/rules/domain_cache.rs:104-110 | names that agree but for the case of ASCII letters have the same normal form |
| DomainNames.FormIsExact | src/rules/domain_cache.rs:104-110 | the normal form is the name without the blanks around it and then without the dots at its end, lowered |
| Text.CaseIsAllThatIsLost | src/rules/domain_cache.rs:104-110 | lowering and raising forget the case of ASCII letters and nothing else |
| Text.TrimIsExact | src/rules/rule.rs:94 | trimming takes all blanks off both ends and nothing else |
| Text.WhitespaceIsTheTable | src/rules/rule.rs:278-281 | a blank is one of the 25 characters with the Unicode property White_Space |
| DomainNames.TrailingDotIsDropped | src/rules/domain_cache.rs:104-110 | a further trailing dot does not change the normal form, exactly unless it shields trailing whitespace |
| DomainNames.FormIsStable | src/rules/domain_cache.rs:104-110 | normalising twice changes nothing, exactly unless the trimmed name has a blank followed only by dots |
| DomainNames.FormIsNotIdempotent | src/rules/domain_cache.rs:104-110 | "a ." is an input where it does |
| TunIo.LoopRefinesSpecification | src/common.rs:21-104 | for every run of inbound packets and routed packets, the loop with its cache sends the same packets to the same sinks in the same order as a specification that decides by the first rule matching the set of unexpired logged names |
| TunIo.RoutingIsItsText | src/common.rs:21-104 | for every run under every readable list of rule texts, each packet from the TUN device goes where the first text that applies to it sends it, given exactly the names that the answers so far give its destination, and each inbound packet goes to the TUN device |
| TunIo.LearnedNameMeetsItsRule | src/rules/rule.rs:273-285 | a name learned from any answer, while it lasts, meets every DOMAIN, DOMAIN-SUFFIX and DOMAIN-KEYWORD text written for it in whatever spelling: the packet gets that text's action unless an earlier text applies |
| TunIo.RouteAgrees | src/common.rs:21-39 | cache lookup plus first match is the specification's decision, whatever the order of the list |
| TunIo.RoutingIgnoresSpelling | src/rules/rule.rs:273-285 | for every run and all rule texts and DNS answers, changing the case of fields, actions, country codes and protocols, the blanks around the pieces, or names and domain values for others with the same normal form makes no list readable or unreadable and changes no packet's path, which is the one the specification gives |
| TunIo.TunTask.constructor | src/common.rs:50-51 | the task starts with an empty cache and has sent nothing |
| TunIo.TunTask.HandleInbound | src/common.rs:55-81 | inbound packets are learned from, with one clock reading per answer, and written to the TUN device |
| TunIo.TunTask.HandlePacketRoute | src/common.rs:6-40 | unparsable packets go to the transport, the others where the specification sends them |
| Rule.PrintParseRoundTrip | src/rules/rule.rs:93-168 | printing a parsed rule and parsing it again gives the same rule |
| Rule.RoundTripIffWellFormed | src/rules/rule.rs:210-244 | for any rule value, printing and parsing is the identity exactly if it is MATCH or one field with a canonical value |
| Rule.SecondConditionIsLost | src/rules/rule.rs:210-244 | a rule value with a source and a destination port prints and parses to another rule |
| Rule.CanonicalIsFixed | src/rules/rule.rs:273-304 | a trimmed value is its own normal form exactly by its characters: for domains no upper-case letter, forbidden character or trailing dot, for GEOIP no lower-case letter or forbidden character, for other fields always |
| Rule.ParseIgnoresSpelling | src/rules/rule.rs:93-168 | texts that agree up to the case of field and action, blanks around pieces, the case of a country code or protocol and the normal form of a domain are both refused or parse to the same rule, up to the case of the protocol |
| Rule.ParsedHasOneCondition | src/rules/rule.rs:93-168 | every parsed rule carries exactly one condition |
| Rule.ParsedIsWellFormed | src/rules/rule.rs:255-304 | a parsed rule is MATCH or one field whose value is non-empty, trimmed, free of commas and, by field, free of the characters the normaliser changes or refuses |
| Rule.ActionSpellings | src/rules/rule.rs:306-313 | an action is written by its printed name in any case, or as drop for a rejection, and no other way |
| Rule.ActionIsWritten | src/rules/rule.rs:306-313 | direct, proxy, reject and drop, in any case, stand for the three actions, and nothing else does |
| Rule.FieldsAreNamed | src/rules/rule.rs:99-165 | the nine field names, each for its own field, and no others |
| Rule.RuleTextsAreReadable | src/rules/rule.rs:93-168 | exactly these texts are rules: MATCH and an action, or a field name, a value that the field accepts and an action, in any case and with blanks around the pieces |
| Rule.PrintedText | src/rules/rule.rs:210-244 | any rule prints as the name and value of the first field it sets, or as MATCH if it matches all or sets none, and its action's name |
| Rule.RefusalsAreNamed | src/rules/rule.rs:93-313 | a text that is no rule is refused for its empty or unknown name first, then its number of pieces, an empty value, its action, and the value's characters last |
| Config.VisitSeq | src/config.rs:205-220 | the list loop yields one parsed rule per element, or the error of the first bad one |
| Config.ParseAllIgnoresSpelling | src/config.rs:205-220 | lists whose texts agree in that way are both refused or read as rules that are the same one by one, up to the case of protocols |
| Config.AlikeListsDecideAlike | src/rules/rule.rs:23-32 | such rules give every packet the same action |
| Config.ValidationIgnoresSpelling | src/config.rs:74-146 | and validation gives each of them the same result |
| Config.RuleListRoundTrip | src/config.rs:205-234 | writing a list that was read and reading it back gives the same rules, the same validation results and the same action on every packet |
| Config.Validate | src/config.rs:74-146 | accepts exactly if every rule passes, and reports the first that does not |
| Config.ParsedTextIsValid | src/config.rs:130-189 | of a parsed rule only networks, ports and protocols can fail validation |
| Config.ParsedErrorKind | src/config.rs:85-128 | the error of a parsed rule carries its index and the kind of its one condition |
| Config.ValidationIsExact | src/config.rs:103-128 | a parsed port or protocol rule is valid exactly if some packet matches it |
| RuleMeaning.ValidationIsPerField | src/config.rs:74-146 | any rule passes validation exactly if it has a condition and every value it sets is valid: a network, a port range, a protocol, or a text without blanks, slashes and commas |
| Matcher.DomainSuffixIsLabelSuffix | src/rules/matcher.rs:98-102 | the suffix test on strings holds exactly if the suffix's labels are the last labels of the name |
| Matcher.DomainTestsAreNested | src/rules/matcher.rs:94-106 | exact match implies suffix match implies keyword match |
| Matcher.DomainSuffixIsTransitive | src/rules/matcher.rs:98-102 | suffix matching is transitive |
| Matcher.WrittenRangeMatches | src/config.rs:249-269 | a written port range matches exactly the ports inside it, and a written port only itself |
| Matcher.PortRangeIsItsText | src/config.rs:249-269 | exactly these texts are port ranges: one number below 65536, or two with a dash in between in order |
| Matcher.DecimalIsPositional | src/config.rs:255-267 | digits weigh by their position, the last one least |
| Matcher.DigitValue | src/config.rs:255-267 | a digit is worth its place among the ten |
| Matcher.ContainsIsBitwise | src/rules/matcher.rs:69-74 | a network contains an address exactly if its first prefix bits agree |
| Engine.MatchPacket | src/rules/engine.rs:34-53 | the action of the first matching rule, and Direct when none matches |
| Engine.FirstMatchIsDecision | src/rules/engine.rs:34-53 | the action is that of the first rule whose conditions on addresses, ports, protocol and country hold of the packet's own, and whose domain conditions hold of its set of names by label-wise suffixes |
| RuleMeaning.FirstMatchIsItsText | src/rules/engine.rs:34-53 | the engine over a list that was read gives every packet the action of the first text that applies to it, and Direct when none does |
| RuleMeaning.TextDecides | src/rules/matcher.rs:11-67 | a rule that was read matches exactly where its text applies and carries the action written last |
| RuleMeaning.FieldDecides | src/rules/matcher.rs:11-106 | each field decides by its own part of the packet: source or destination address bits, source or destination port, protocol, names, or the destination's country |
| Engine.PrivateRuleIsItsBlocks | src/rules/geoip.rs:26-63 | replacing a GEOIP,PRIVATE rule anywhere in a list by address rules for its nine blocks changes no packet's action |
| Engine.PrivateIsSomeBlock | src/rules/geoip.rs:50-63 | an address is private exactly if it lies in one of the nine blocks |

## Left out

- Sockets, TLS, WebSocket framing, TUN device creation, command line: input and output, foreign libraries.
- Protobuf, YAML, DNS, IPv4 header, CIDR text and country database formats: code outside the repository, taken as function parameters; the IPv4 header bytes around an ICMP reply are therefore not modelled.
- Fairness, cancellation, panics and blocking on full channels: only safety is proved; an event is enabled or not.
- Token checking, keep-alives and data forwarding on the server: a rejected handshake changes nothing, and the rest has no shared state.
- The outbound half of a TCP connection's select loop touches no shared table. The WebSocket and UDP loops drive the same handlers; the UDP loop serves all peers in one task and runs no disconnect of its own, so its sessions end only by a disconnect message or by expiry.
- The TCP relay, IP filters, statistics reporting, client retry and client state file: no shared table, or easy facts only.
- Channel and device errors in the TUN loop: they end the loop, so a failing run is a prefix of a modelled one.
- SessionTable.NarrowSpanRoutesDeterministically: speaks of live sessions; pending ones matter only once they are inserted.
- Engine.PrivateRuleIsItsBlocks: assumes that the CIDR parser, which is outside the repository, reads the nine block texts as the blocks they denote.
- Icmp.RewriteEchoRequest: takes 8 bytes as the length that the ICMP packet library demands of every message.
