# ldn_mitm relay stack: model and proofs

A Dafny model of the internet-relay stack of ldn_mitm and proofs about it. The
stack lets consoles on different networks play local-wireless games: LDN
discovery, joining, game datagrams and game TCP connections all travel through
a small UDP relay server.

## What is modelled

| files | part of the system |
|---|---|
| ZeroRunCodec, LanFraming, ShortestCode | the LAN packet frames: zero-run compression, the byte-stream deframer, the send counter |
| Checksum, RelayFrames, Fragments, FragmentRuns, FragmentEviction, RelayTransport | the relay transport: IPv4/UDP wrapping, the shim with the real addresses, fragmentation and reassembly, the learned peer addresses |
| SessionRegistry | the published peer set and the receive ring the game reads from |
| RelayServer, ServerRuns, ServerLife | the relay server: source learning, scopes, re-keying, expiry, who stays reachable |
| TransportRuns | runs of one transport: learned addresses, the dead path |
| EndToEnd, Delivery | console, server and console composed |
| TunnelTable, TunnelLink, TunnelSystem, TunnelSteps, TunnelRuns, TunnelLive | the TCP tunnel: one console's stream table, one connection on its own, and any number of consoles over FIFO channels |
| DomainIds, DomainRuns | the domain-scoped object id allocator of the libstratosphere patch, and all runs of it |
| LdnState, LanDiscovery | one console's LDN session: what each handler does, and the object that does it in place |
| ScopeTokens, SyncFilter, NodeChanges, SessionMarks, LdnRuns, PublishedPeers, PeerLoss, Heartbeats, JoinSafety, StraySyncs, JoinStories, JoinOwners, SessionLife, LessonRuns | what that session guarantees over whole runs, alone and among any number of consoles |
| ConfigText, RelayConfig, ConfigFiles, ConfigRoundTrip | the settings file |
| Bytes | fixed-width integers and byte orders |

Objects whose methods update fields are classes (`LanSocket`, `Reassembler`,
`GameRx`, `RelayTransport`, `Server`, `TcpRelay`, `DomainManager`,
`LANDiscovery`, `Settings`). Each method but those of `DomainManager` is proved
to compute a function of the old state, and the run theorems are about those
functions; a run of the manager is the method `DomainRuns.Run`, which makes the
calls and is proved against a table of objects and reserved ids. Sockets,
clocks, random draws and frames under way are inputs. Every locked region is
one step.

Integers have the source's widths where it matters: `u16` and `u32` wrap
explicitly, fragment masks and change marks are eight-bit vectors.

## Where the code does not keep what one might expect

Each of these is shown by a concrete run or input, next
to the condition under which the expectation holds.

- A console that no longer hosts still broadcasts node lists, under whatever
  identifier it last saw, when the game sets advertise data or one of its old
  TCP stations introduces itself or goes. A waiting console can join on such a
  list although no host ever had it (`StraysCanMislead`). Exactly without such
  moves every list comes from a host that shows its own network (`StraysIff`,
  `HostsSpeakIff`), and then every join is confirmed by a host at the address
  aimed at (`JoinsAreConfirmed`). For joins this goes one way: a stray list
  that repeats what a host sends, or that reaches no waiting console, does no
  harm.
- Network identifiers come from real addresses. Without such moves, the host
  that confirms a join is the one whose network was advertised if and only if
  no other console has its address, or nobody could join it
  (`ConfirmsItselfIff`, `SharedAddressMisleads`).
- A Connect names no network, so every host that hears one enrols the station:
  a station in the table need not aim at this host (`EnrolledElsewhere`). Which
  hosts enrol it does not depend on the target (`ConnectRegistersIff`), but its
  heartbeats count only where it aims (`HeartbeatStampsIff`).
- A control frame gives the real address of its sender, except that a console
  that does not host broadcasts lists with another host in them; exactly then a
  virtual address is taught for somebody else's real one (`TeachesOwnIff`,
  `StraysTeachWrong`). Without such moves a console knows the right virtual
  address for a real one, or none, if and only if no console that has that real
  address could mislead it (`CleanRunsTeachRightIff`); over all runs, if and only
  if no other console at all could (`AllRunsTeachRightIff`).
- Frames to a real address reach only its owner if and only if no other console
  has it (`RealUnicastSafeIff`, `RealAddressesCollide`); virtual addresses are
  safe (`VirtualUnicastIsSafe`).
- The session filter on game traffic goes by real address: only members get in
  if and only if no outsider has the address of a listed peer
  (`MembersOnlyIff`, `OutsiderGetsIn`).
- Learned keys follow scopes only until a declaration lapses: an endpoint that
  declares its next scope later leaves its addresses behind
  (`LapseStrandsKeys`; exactly `WaitingKeepsAgreementIff`, `DeclareMovesAllIff`).
- Tunnel stream ids stay unique only until the 16-bit counter meets a live
  stream (`IdsComeRound`; exactly `RedirectKeepsKeysIff`, `FreshIffNotCameRound`).
- A fragmented packet that found all slots busy is safe until four others are
  displaced, but one that took a free slot may be displaced by the very next
  (`FreeSlotIsNext`, `FreeSlotArises`; exactly `ReturnedIffInTime`).
- An Open that finds no free slot at the peer gets no answer, so the game that
  connected is left with an open connection to nobody (`OpenComesUp`).
- The published peers are those of the first nodeCount nodes, so a gap in the
  slots hides a connected station (`GapsMislead`, `PublishedIsExactIff`); and
  they are not refreshed while the address lookup fails (`StaleMisleads`,
  `HostPublishes`).
- A host takes a Connect for a repeated one if any slot in use holds its
  address, even a left-over address in a slot whose TCP connection has not
  introduced itself; the station is then not registered
  (`LeftOverKeepsOwnerOut`, `ConnectRegistersIff`).
- The staleness check on syncs is right from 254 packets behind to 65279 ahead
  and no further, one less on each side than its constant suggests, because
  stamps skip 0 (`WindowIsExact`).
- A server entry without a name is read right only up to 31 characters: of a
  longer address the name takes the front away (`BareReadsIff`).
- Persisting settings can push server lines past the read buffer
  (`PersistCanLoseServers`; exactly `PersistThenLoadIff`).

Two comments in the sources say more than the code does, and the model follows
the code: generated domain object ids are called monotonic and never equal, but
the 32-bit counter wraps (docs/atmosphere-libs-mitm-domain-id-collision.patch:82-84);
and all own frames are said to fit one relay frame, but game datagrams are
fragmented (ldn_mitm/source/relay_client.cpp:934-935).

## Model

| member | source | states |
|---|---|---|
| ZeroRunCodec.ScanRun | ldn_mitm/source/lan_protocol.cpp:252-257 | counts the zeros after a zero byte: all of them up to 255, and no further |
| ZeroRunCodec.Compress | ldn_mitm/source/lan_protocol.cpp:239-273 | succeeds exactly when the zero-run code of the input fits the output, and then writes that code |
| ZeroRunCodec.Decompress | ldn_mitm/source/lan_protocol.cpp:275-302 | computes the decoder Expand, with its failures: truncated run, output full before the input is used up |
| ZeroRunCodec.RoundTrip | ldn_mitm/source/lan_protocol.cpp:239-302 | decoding the code of any data, with room for at least the data, gives back exactly the data and consumes all input |
| LanFraming.HeaderReadsBack | ldn_mitm/source/lan_protocol.hpp:37-47 | every header field survives the wire layout |
| LanFraming.NextStamp | ldn_mitm/source/lan_protocol.cpp:197-202 | the send counter never stamps 0 |
| LanFraming.FrameFits | ldn_mitm/source/lan_protocol.cpp:166-189 | a sent frame is 12 bytes plus the body or its code, whichever is shorter |
| ShortestCode.EncodeIsShortest | ldn_mitm/source/lan_protocol.cpp:239-302 | no code that a decoder of any capacity expands to the data is shorter than the one the sender uses |
| ShortestCode.FrameIsShortest | ldn_mitm/source/lan_protocol.cpp:163-189 | no frame that a receiver opens to the message is shorter than the one that is sent |
| LanFraming.Deframe | ldn_mitm/source/lan_protocol.cpp:93-120 | after any read of a buffer of at most 2048 bytes, fewer than 2048 stay buffered, so the next recv never asks for 0 bytes |
| LanFraming.OpenFrame | ldn_mitm/source/lan_protocol.cpp:123-189 | opening a sent frame gives back its type, body and stamp |
| LanFraming.CutsWholeFrame | ldn_mitm/source/lan_protocol.cpp:93-120 | a buffer starting with a whole sent frame is cut exactly behind it |
| LanFraming.KeepsPartFrame | ldn_mitm/source/lan_protocol.cpp:93-114 | a proper prefix of a sent frame yields nothing and loses nothing |
| LanFraming.NextFrame | ldn_mitm/source/lan_protocol.cpp:84-121 | a read cuts off the next sent frame exactly when the buffer holds all of it |
| LanFraming.StreamDeframes | ldn_mitm/source/lan_protocol.cpp:84-162 | for every list of sent packets and every chunking of any prefix of their concatenation: messages are delivered in order and unchanged, nothing is reset or fails, and exactly the bytes behind the last delivered frame stay buffered |
| LanFraming.ResetRecovers | ldn_mitm/source/lan_protocol.cpp:93-109 | bytes that are no header, or state a frame too long for the buffer, are thrown away with all that is buffered; a stream that starts afresh behind them is received like any other |
| LanFraming.DeliveredIsStated | ldn_mitm/source/lan_protocol.cpp:135-152 | a compressed frame is delivered if and only if its body decodes, to exactly the length its header states |
| LanFraming.LanSocket.PrepareHeader | ldn_mitm/source/lan_protocol.cpp:191-203 | advances the counter past 0 and stamps the header |
| LanFraming.LanSocket.SendPacket | ldn_mitm/source/lan_protocol.cpp:163-189 | produces the frame of the message under the next stamp |
| LanFraming.LanSocket.Append | ldn_mitm/source/lan_protocol.cpp:84-91 | received bytes go behind those already buffered |
| LanFraming.LanSocket.CutFront | ldn_mitm/source/lan_protocol.cpp:116-120 | hands out the first total bytes and moves the rest to the front |
| LanFraming.LanSocket.RecvPartPacket | ldn_mitm/source/lan_protocol.cpp:84-121 | one recv and at most one frame: the buffer afterwards and the result are those of Deframe, and there is always room left |
| LanFraming.LanSocket.RecvPacket | ldn_mitm/source/lan_protocol.cpp:123-162 | delivers what Open makes of the frame, records its stamp, and reports -1 for a body that does not decode to its stated length |
| Checksum.FoldCarries | ldn_mitm/source/relay_client.cpp:76-79 | terminates and folds the accumulator to its one's-complement value |
| Checksum.IpChecksum | ldn_mitm/source/relay_client.cpp:68-80 | the complement of the one's-complement sum of the words, odd lengths included, with no overflow of the 32-bit accumulator for the allowed lengths |
| Checksum.VerifiesIffChecksum | ldn_mitm/source/relay_client.cpp:675-676 | for every header, the sum over the header with its checksum field filled folds to 0xFFFF if and only if the field holds the computed checksum or its other zero (section 3.1 of RFC 791) |
| Fragments.FragReadsBack | ldn_mitm/source/relay_client.cpp:710-722 | every field of a fragment header is read back by the receiver |
| Fragments.FullMeansAll | ldn_mitm/source/relay_client.cpp:984 | the completion test of the mask holds exactly when the parts seen are all parts |
| Fragments.Reassembler.FindSlot | ldn_mitm/source/relay_client.cpp:954-960 | the first slot collecting this source and id |
| Fragments.Reassembler.FindFree | ldn_mitm/source/relay_client.cpp:962-967 | the first unused slot |
| Fragments.Reassembler.ClaimSlot | ldn_mitm/source/relay_client.cpp:954-977 | the slot already collecting, a free one, or the next one in the eviction order, as Claim says |
| Fragments.Reassembler.Store | ldn_mitm/source/relay_client.cpp:979-983 | sets the part bit, copies the bytes to their offset and records the total on the last part |
| Fragments.Reassembler.ReassembleFrag | ldn_mitm/source/relay_client.cpp:931-990 | the new slots and the returned packet are those of Arrive, rejections included |
| FragmentRuns.ReturnsTheSentPacket | ldn_mitm/source/relay_client.cpp:931-990 | whatever arrived before, a packet returned for a genuine fragment is byte for byte the packet cut under its source and id, and it is returned exactly when the slot holds all parts |
| FragmentRuns.RunsReturnSentPackets | ldn_mitm/source/relay_client.cpp:931-990 | the same for every arrival of every run: any order, loss, duplication, interleaving and eviction |
| FragmentRuns.ReturnsWhenComplete | ldn_mitm/source/relay_client.cpp:954-990 | with at most four packets in progress nothing is evicted and a packet is returned at exactly the arrival that completes it |
| FragmentRuns.RunsReturnExactly | ldn_mitm/source/relay_client.cpp:931-990 | over runs with at most four packets in progress each arrival returns exactly what a per-packet set of parts says |
| FragmentRuns.FreeSlotsStart | ldn_mitm/source/relay_client.cpp:592-594 | the freshly opened transport satisfies what the run theorems start from |
| FragmentEviction.ReturnedIffInTime | ldn_mitm/source/relay_client.cpp:954-990 | whatever stale parts fill the slots and whatever arrives in between: a packet in progress is returned at its last missing part if its slot was not reached by the round-robin meanwhile, that is if at most as many packets were displaced as its slot has ahead of it; and if its first parts are not sent again, only then |
| FragmentEviction.FirstPartTurn | ldn_mitm/source/relay_client.cpp:962-977 | a packet that finds no free slot takes the one in turn and is then last in turn; one that finds a free slot takes the first, with the turn that slot happens to have |
| FragmentEviction.LatecomerIsReturned | ldn_mitm/source/relay_client.cpp:968-990 | so a packet whose first part found all four slots busy is returned at its last missing part if fewer than four packets were displaced since |
| FragmentEviction.PeersInterleave | ldn_mitm/source/relay_client.cpp:931-990 | with all four slots full of stale parts, two packets of two fragments each that arrive interleaved are both returned |
| FragmentEviction.FreeSlotIsNext | ldn_mitm/source/relay_client.cpp:962-970 | a packet that took a free slot which was next in turn is displaced by the very next packet that finds none, and is not returned though its fragments came with one fragment between them |
| FragmentEviction.FreeSlotArises | ldn_mitm/source/relay_client.cpp:954-990 | that slot is free and in turn after a run from free slots: four packets begin and the first of them completes |
| FragmentEviction.AnyCuttingValid | ldn_mitm/source/relay_client.cpp:941-951 | the receiver bounds admit every cutting of 1 to 1600 bytes into parts of 200 bytes or more |
| FragmentEviction.TrailingIgnored | ldn_mitm/source/relay_client.cpp:947-980 | bytes behind the data of a fragment are ignored |
| SessionRegistry.Registry.Publish | ldn_mitm/source/session_registry.cpp:28-39 | stores the peers given, at most eight of them |
| SessionRegistry.Registry.Clear | ldn_mitm/source/session_registry.cpp:41-49 | ends the session and empties the receive ring |
| SessionRegistry.GameRx.Push | ldn_mitm/source/session_registry.cpp:84-109 | the queue after a push is the drop-oldest queue of 32; empty and oversized payloads change nothing |
| SessionRegistry.GameRx.Place | ldn_mitm/source/session_registry.cpp:93-101 | the slot behind the newest entry, or the oldest entry's when full |
| SessionRegistry.GameRx.Pop | ldn_mitm/source/session_registry.cpp:111-125 | hands out the oldest entry, cut to the caller's buffer, and removes just that one |
| SessionRegistry.GameRx.Clear | ldn_mitm/source/session_registry.cpp:153-159 | empties the queue and forgets the destination port and the game socket |
| SessionRegistry.KeepsNewest | ldn_mitm/source/session_registry.cpp:84-109 | after any number of pushes the ring holds exactly the newest 32 datagrams, in order |
| RelayFrames.PacketReads | ldn_mitm/source/relay_client.cpp:659-682 | every field of a built IPv4/UDP packet reads back, both lengths are right and its header checksum verifies |
| RelayFrames.SendCuttingValid | ldn_mitm/source/relay_client.cpp:698-722 | every packet up to 1600 bytes is cut into at most eight parts that fit the receiver's slot |
| RelayFrames.GamePacketArrives | ldn_mitm/source/relay_client.cpp:745-773 | a game datagram, shimmed or legacy, is classified by a peer as game traffic under the sender's real address with its port and payload |
| RelayFrames.ForeignPacketDropped | ldn_mitm/source/relay_client.cpp:818-897 | the same packet is dropped by a console whose session does not list the sender |
| RelayFrames.MembersOnlyIff | ldn_mitm/source/relay_client.cpp:818-897 | whoever counts as a member, a console's game gets datagrams of members only if and only if no outsider has the real address of a listed peer |
| RelayFrames.TunnelPacketArrives | ldn_mitm/source/relay_client.cpp:1005-1034 | a tunnel frame reaches the tunnel of the peer unchanged |
| RelayFrames.ControlPacketArrives | ldn_mitm/source/relay_client.cpp:1041-1050 | a control packet reaches discovery unchanged, paired with the sender's virtual address, if it is not empty and fits the caller's buffer, and is dropped otherwise |
| RelayFrames.OptionsIgnored | ldn_mitm/source/relay_client.cpp:1000-1050 | options in the IPv4 header of a received packet make no difference to what is done with it |
| RelayFrames.OwnAddressDropped | ldn_mitm/source/relay_client.cpp:839-848 | a virtually addressed frame under the own virtual address is dropped as an echo, whatever real address it carries |
| RelayTransport.RelayTransport.LookupVsrc | ldn_mitm/source/relay_client.cpp:798-806 | the learned virtual address of a real one, 0 if none |
| RelayTransport.RelayTransport.LearnPeer | ldn_mitm/source/relay_client.cpp:775-796 | the map afterwards is that of Learned: an acceptable pair is found, every other address keeps its mapping, except the one the ring replaces |
| RelayTransport.RelayTransport.Replace | ldn_mitm/source/relay_client.cpp:784-795 | overwrites one entry: its new address is found, its old one forgotten, all others kept |
| RelayTransport.RelayTransport.SendFragmented | ldn_mitm/source/relay_client.cpp:695-730 | emits exactly the fragment frames of the packet under the next id |
| RelayTransport.RelayTransport.Wrap | ldn_mitm/source/relay_client.cpp:663-682 | builds the IPv4/UDP packet around the payload with its checksum |
| RelayTransport.RelayTransport.SendWrapped | ldn_mitm/source/relay_client.cpp:659-693 | emits the one frame, or the fragments, that carry the packet |
| RelayTransport.RelayTransport.SendBroadcast | ldn_mitm/source/relay_client.cpp:732-738 | fails exactly on a closed transport or an oversized packet; otherwise announces the packet from the virtual address |
| RelayTransport.RelayTransport.SendGameUnicast | ldn_mitm/source/relay_client.cpp:745-773 | fails exactly on the four refused inputs; otherwise sends shimmed to a known virtual address and legacy to an unknown one |
| RelayTransport.RelayTransport.SendGameBroadcast | ldn_mitm/source/relay_client.cpp:740-743 | the same, to everyone |
| RelayTransport.RelayTransport.IsPeer | ldn_mitm/source/relay_client.cpp:871-874 | whether the active session lists the address |
| RelayTransport.RelayTransport.TakeShim | ldn_mitm/source/relay_client.cpp:839-848 | the real source and payload behind the shim of a virtually addressed frame |
| RelayTransport.RelayTransport.InjectGameFrame | ldn_mitm/source/relay_client.cpp:818-897 | queues exactly the peers' game datagrams and drops everything else |
| RelayTransport.RelayTransport.ProcessIpv4 | ldn_mitm/source/relay_client.cpp:992-1051 | routes a packet to tunnel, game queue or discovery as Classify says |
| RelayTransport.RelayTransport.SendPing | ldn_mitm/source/relay_client.cpp:646-653 | one more probe unanswered, unless the transport is closed |
| RelayTransport.RelayTransport.RecvBroadcast | ldn_mitm/source/relay_client.cpp:899-929 | a closed transport or nothing to read changes nothing; otherwise reassembles first, then routes, and any datagram ends the count of unanswered probes |
| TransportRuns.PathDeadIff | ldn_mitm/source/relay_client.cpp:646-657 | over every run of probes and datagrams of an open transport the path is dead if and only if an echo ever came and the last four events were probes |
| TransportRuns.TopBitIgnored | ldn_mitm/source/relay_client.cpp:905-924 | the top bit of the type of a datagram makes no difference, for echoes and for packets |
| TransportRuns.KnownWasTaught | ldn_mitm/source/relay_client.cpp:775-796 | whatever virtual address is known for a real one was taught by a lesson that counted |
| TransportRuns.KnownIsOwners | ldn_mitm/source/relay_client.cpp:775-796 | after lessons that each give their sender's own real address, or none, what is known for a real address is the virtual address of a console that has it |
| TransportRuns.KnownRightIff | ldn_mitm/source/relay_client.cpp:775-796 | after lessons of that kind only the virtual address of c is ever known for its real one, if and only if no other console that could be learned has that real address |
| TransportRuns.FewAreRemembered | ldn_mitm/source/relay_client.cpp:784-795 | as long as at most sixteen real addresses are ever learned none is forgotten: what is known is what the last lesson about it said |
| TransportRuns.KnownIsQueued | ldn_mitm/source/relay_client.cpp:775-796 | after any lessons about any number of addresses: what is known is what a queue of the sixteen addresses added last holds, each with the virtual address of its last lesson |
| RelayServer.Server.ScopeOf | tools/relay_server.py:106-114 | the token of a declaration not older than 300 s, else 0; a stale one is dropped |
| RelayServer.Server.ActiveEndpoints | tools/relay_server.py:116-142 | drops clients idle for over 60 s and returns exactly the live endpoints asked for |
| RelayServer.Server.Rekey | tools/relay_server.py:183-189 | moves exactly the addresses this endpoint holds under the old token |
| RelayServer.Server.Refresh | tools/relay_server.py:160-166 | refreshes exactly the endpoint's entries and learns nothing |
| RelayServer.Server.DropStaleScopes | tools/relay_server.py:192-195 | drops exactly the stale declarations |
| RelayServer.Server.OnDatagram | tools/relay_server.py:144-251 | one turn of the receive loop: new state and datagrams sent are those of Step |
| RelayServer.Server.OnScope | tools/relay_server.py:176-196 | a declaration: scope recorded, addresses re-keyed |
| RelayServer.Server.OnFrame | tools/relay_server.py:201-251 | learning and forwarding: broadcast audience or unicast owner |
| ServerRuns.RunsRouteHome | tools/relay_server.py:160-216 | in every run of honest consoles an address is only ever mapped to an endpoint of a console that has it, a virtual address therefore to its owner, through learning, re-keying, keepalives and expiry |
| ServerRuns.UnicastGoesHome | tools/relay_server.py:240-251 | a frame to a virtual address goes unchanged to a console owning it or to nobody, never back to its sender |
| ServerRuns.VirtualUnicastIsSafe | tools/relay_server.py:144-251 | the same from the empty server over any honest history |
| ServerRuns.RealUnicastSafeIff | tools/relay_server.py:214-251 | after every honest history every frame to a real address goes to its owner or to nobody, if and only if no other console has that address |
| ServerRuns.RealAddressesCollide | tools/relay_server.py:214-216 | from the empty server: frames to a real address two consoles share reach first the one, and after it has spoken the other |
| ServerRuns.StepKeepsAgreement | tools/relay_server.py:144-251 | no message makes a key's token differ from the current scope of its endpoint |
| ServerRuns.DeclareMovesAll | tools/relay_server.py:176-191 | in an agreeing state a declaration moves every address of the endpoint, keeps their idle times and leaves nothing behind; an entry of another endpoint gives way exactly if it holds, under the new token, an address the declaring endpoint held under the old one |
| ServerRuns.DisplacedIsSameConsole | tools/relay_server.py:183-191 | for a virtual address that happens only between two endpoints of the console that owns it |
| ServerRuns.DeclareMovesAllIff | tools/relay_server.py:176-191 | in any state a declaration leaves all addresses of the endpoint under the new token if and only if each was under its current scope or the new token already |
| ServerRuns.WaitingKeepsAgreementIff | tools/relay_server.py:111-113 | time alone breaks the agreement exactly when a declaration behind a scoped key ages out |
| ServerRuns.LapseStrandsKeys | tools/relay_server.py:111-113 | a run from the empty server: an endpoint declares its next scope some time after the first; a peer in the new scope reaches it if and only if the first had not aged out, and its address stays behind under the old token if and only if it had |
| ServerRuns.RunsAgree | tools/relay_server.py:144-251 | over every timed run without a lapse, every key's token equals its endpoint's scope |
| ServerRuns.BroadcastAudience | tools/relay_server.py:220-235 | a game broadcast from scope t reaches exactly the live other endpoints under t or unscoped; discovery and unscoped senders reach all live others; the one entry under the sender's own token and address counts as the sender's, whoever held it |
| ServerRuns.UnicastSurvivesJoin | tools/relay_server.py:183-191 | a peer already in the scope reaches an endpoint before and after that endpoint declares the scope |
| ServerRuns.UnicastSurvivesLeave | tools/relay_server.py:183-191 | and before and after it leaves the scope |
| ServerLife.KeptAliveIsReached | tools/relay_server.py:116-166 | over every timed run in which its own declaration does not lapse: an endpoint that spoke for an address nobody else speaks for, and since then sent a keepalive or a frame from it at least every sixty seconds, is reached by a broadcast of another endpoint if and only if that is discovery traffic or their scopes meet, and by a unicast to the address if and only if it is in the scope of the sender or in none |
| ServerLife.SilentIsForgotten | tools/relay_server.py:131-136 | over every run: no broadcast reaches an endpoint that has sent no keepalive and no frame for more than sixty seconds |
| ServerLife.ProbeComesBack | tools/relay_server.py:168-174 | a PING goes back to the console it came from and counts as an echo there: its path is alive, and stays so through three more unanswered probes |
| EndToEnd.VsrcIsNotBroadcast | ldn_mitm/source/relay_client.cpp:128-136 | an acceptable client id is never taken for a broadcast by the server |
| EndToEnd.FrameRouting | tools/relay_server.py:198-212 | the server routes every frame of a packet, whole or fragment, by the packet's own outer addresses |
| EndToEnd.GameFrameReachesPeerOnly | tools/relay_server.py:214-251 | after any honest history each frame of a game datagram sent by virtual address goes unchanged to an endpoint of that peer or to nobody, and to somebody when the server knows the peer |
| EndToEnd.ControlCrossesScopes | tools/relay_server.py:208-226 | no control packet up to NetworkInfo size is fragmented, so the server sees its discovery port and lets it cross every scope; the receiver gets the message |
| EndToEnd.OptionsRouteAlike | tools/relay_server.py:74-81 | options in the IPv4 header of a frame make no difference to where the server sends it |
| Delivery.EveryArrivalIsExact | ldn_mitm/source/relay_client.cpp:899-990 | over every run in which whole packets, genuine fragments and other datagrams mix, with at most four packets in progress: a whole packet is handed on at once, a cut one at exactly the arrival that completes it, and nothing else |
| Delivery.CutDatagramReceived | ldn_mitm/source/relay_client.cpp:899-1051 | a game datagram in two fragments, shimmed or legacy: once both have arrived, in either order, whatever else arrived before and between, a listed receiver queues exactly (sender's real address, port, payload) at the later one |
| Delivery.WholeDatagramReceived | ldn_mitm/source/relay_client.cpp:899-1051 | a game datagram in one frame, shimmed or legacy: the same at its arrival, whatever is being reassembled |
| Delivery.WholeDatagramDelivered | tools/relay_server.py:144-251 | the same from game to game: after any honest history the server sends the frame of a datagram to a virtual address only to that peer, and its game gets exactly that datagram |
| Delivery.CutDatagramDelivered | tools/relay_server.py:144-251 | and for two frames: each goes on unchanged and only to the peer, and its game gets exactly that datagram |
| Delivery.FrameGoesToAll | tools/relay_server.py:220-235 | in every timed run without a lapse the server sends each frame of a game broadcast on unchanged, to exactly the live other endpoints in the scope of the sender or in none, or to all of them if it has none |
| Delivery.WholeBroadcastDelivered | tools/relay_server.py:220-235 | from game to all games: and every console there that takes traffic from the sender gets exactly that datagram, for one frame |
| Delivery.CutBroadcastDelivered | tools/relay_server.py:220-235 | and for two frames, whatever else arrives before and between |
| Delivery.OutsiderGetsIn | ldn_mitm/source/relay_client.cpp:818-897 | a run from the empty server: an outsider with the real address of a listed peer broadcasts, and a console's game gets the datagram as if it came from the peer |
| TunnelTable.FrameSurvivesWire | ldn_mitm/source/tcp_relay.cpp:129-143 | a frame of at most 1024 data bytes reads back as sent |
| TunnelTable.TornFrameReads | ldn_mitm/source/tcp_relay.cpp:424-432 | bytes behind a tunnel frame are ignored; of a torn one the data that is there is read, and nothing from less than a header |
| TunnelTable.TcpRelay.FindById | ldn_mitm/source/tcp_relay.cpp:77-84 | the first used slot with this peer, id and side |
| TunnelTable.TcpRelay.FindByGameFd | ldn_mitm/source/tcp_relay.cpp:89-96 | the first originated slot of this game socket |
| TunnelTable.TcpRelay.Alloc | ldn_mitm/source/tcp_relay.cpp:105-117 | takes the first unused slot |
| TunnelTable.TcpRelay.Release | ldn_mitm/source/tcp_relay.cpp:120-127 | clears the slot |
| TunnelTable.TcpRelay.FlushPending | ldn_mitm/source/tcp_relay.cpp:190-205 | pushes pending bytes until the socket blocks or fails; on failure says Close and clears the slot |
| TunnelTable.TcpRelay.PushOut | ldn_mitm/source/tcp_relay.cpp:191-204 | the bytes taken and left are those of Flush, in order and without loss |
| TunnelTable.TcpRelay.PumpAccept | ldn_mitm/source/tcp_relay.cpp:263-274 | the accepted socket takes over and what waited is flushed |
| TunnelTable.TcpRelay.PumpRead | ldn_mitm/source/tcp_relay.cpp:277-300 | data goes out under the slot's owner bit; an end or error says Close and clears the slot |
| TunnelTable.TcpRelay.RedirectConnect | ldn_mitm/source/tcp_relay.cpp:306-422 | a connect to a peer opens at most one stream per game socket; every failure leaves the table as it was, except for the id drawn when only the dispatch failed |
| TunnelTable.TcpRelay.OnTunnelFrame | ldn_mitm/source/tcp_relay.cpp:424-490 | a received frame acts as OnFrame says; short frames are ignored |
| TunnelTable.TcpRelay.HandleOpen | ldn_mitm/source/tcp_relay.cpp:437-458 | opens a slot once, answers Close when the game cannot be reached |
| TunnelTable.TcpRelay.HandleData | ldn_mitm/source/tcp_relay.cpp:459-478 | queues and flushes; an overflow of 8192 pending bytes closes the stream |
| TunnelTable.TcpRelay.Stop | ldn_mitm/source/tcp_relay.cpp:526-533 | forgets every stream |
| TunnelTable.FlushSplits | ldn_mitm/source/tcp_relay.cpp:190-204 | between the bytes a socket took and those left nothing is lost or reordered |
| TunnelTable.FlushFailsIff | ldn_mitm/source/tcp_relay.cpp:190-205 | a flush pushes as much as the socket takes, and fails if and only if the socket breaks while bytes are left; a socket that blocks is no failure |
| TunnelSteps.FramesActOnPairedSlot | ldn_mitm/source/tcp_relay.cpp:436-486 | a Data or Close frame finds the slot of its own connection at the receiver, exactly that one, and none if there is none, even when both consoles use the same stream number |
| TunnelSteps.OpenIsNew | ldn_mitm/source/tcp_relay.cpp:438-441 | on a loss-free channel an Open never meets a slot of its own connection |
| TunnelSteps.StepKeeps | ldn_mitm/source/tcp_relay.cpp:190-486 | every step of every console - connects, partial sends, accepts, reads, overflows, closes, deliveries, stops - keeps pairing and fidelity, if a drawn id is not one still in use |
| TunnelSteps.TagsNeverBlock | ldn_mitm/source/tcp_relay.cpp:436-486 | the model's bookkeeping never prevents a step the code could take |
| TunnelRuns.StreamsAreFaithful | ldn_mitm/source/tcp_relay.cpp:190-300 | over every run: what a local socket took is a prefix of what was read from the other side's, and while the slot exists taken, pending and in flight together are exactly what was read |
| TunnelRuns.StreamsArePaired | ldn_mitm/source/tcp_relay.cpp:77-102 | over every run: (peer, id, originator) is unique among used slots, and the head frame of any channel finds its own connection's slot or none |
| TunnelRuns.RedirectKeepsKeysIff | ldn_mitm/source/tcp_relay.cpp:386-391 | a redirected connect keeps those keys unique if and only if the drawn id is not that of a stream already open to that peer |
| TunnelRuns.IdsComeRound | ldn_mitm/source/tcp_relay.cpp:387 | it can fail: a run of 65537 connects from empty tables, all but two of them failing, after which one table holds a key twice |
| TunnelRuns.FreshIffNotCameRound | ldn_mitm/source/tcp_relay.cpp:387 | a draw is fresh if and only if no live stream to that peer was opened a multiple of 65536 draws ago |
| TunnelRuns.FewConnectsAreSafe | ldn_mitm/source/tcp_relay.cpp:306-422 | every run with at most 65536 connects keeps all of it, unconditionally |
| TunnelLive.ConnectComesUp | ldn_mitm/source/tcp_relay.cpp:347-421 | a redirected connect with a slot free and a fresh id opens a connection: the originator is up behind its listener, and the Open is the last frame on its way to the peer |
| TunnelLive.TakenOverIff | ldn_mitm/source/tcp_relay.cpp:306-422 | a connect is taken over if and only if its setup works out and the socket of the game has a stream afterwards |
| TunnelLive.OpenComesUp | ldn_mitm/source/tcp_relay.cpp:436-457 | an Open brings up the end of its connection at the peer if and only if a slot is free and the game there can be reached, on the socket that reached it; if only the game cannot be reached a Close goes back, and without a free slot nothing does |
| TunnelLive.RepeatedOpenIgnored | ldn_mitm/source/tcp_relay.cpp:437-440 | an Open that comes again changes nothing and gets no answer |
| TunnelLive.CloseTakesDown | ldn_mitm/source/tcp_relay.cpp:479-486 | after a delivered Close its receiver has no slot of that connection, and no other connection is touched |
| TunnelLive.ReadBytesArrive | ldn_mitm/source/tcp_relay.cpp:190-478 | from every reachable state in which a side of a connection has its slot and no Close is on its way there: when from then on frames arrive, games accept and sockets take what they are given, the socket on that side comes to have taken all that was read on the other, and the slot is still there |
| TunnelLive.StreamEndsIff | ldn_mitm/source/tcp_relay.cpp:190-486 | a step ends the stream in a slot if and only if it is a stop, the end of its local socket, a failed flush to it, or the delivery of a frame of its own connection that is a Close, overflows its 8192 pending bytes or fails to be flushed |
| TunnelLive.EndsAreTold | ldn_mitm/source/tcp_relay.cpp:190-478 | whenever a stream ends other than by a stop or by the Close of the other side, a Close of it is the last frame on its way there |
| DomainIds.DomainManager.AllocateEntry | docs/atmosphere-libs-mitm-domain-id-collision.patch:157-158 | any free entry, or none exactly when none is free |
| DomainIds.DomainManager.FindEntryLocked | docs/atmosphere-libs-mitm-domain-id-collision.patch:137-152 | finds an entry of this domain with the id exactly if there is one; never for the invalid id |
| DomainIds.DomainManager.SearchList | docs/atmosphere-libs-mitm-domain-id-collision.patch:141-150 | a listed entry with the id, or none if no listed entry has it |
| DomainIds.DomainManager.GetObject | docs/atmosphere-libs-mitm-domain-id-collision.patch:271-287 | the object registered in this domain under the id, whatever other domains hold |
| DomainIds.DomainManager.TryRegisterMirroredObject | docs/atmosphere-libs-mitm-domain-id-collision.patch:197-216 | registers exactly when the id is valid and unused here and an entry is free; otherwise nothing changes |
| DomainIds.DomainManager.RegisterFree | docs/atmosphere-libs-mitm-domain-id-collision.patch:206-214 | binds the object under the id and uses one free entry |
| DomainIds.DomainManager.RegisterObject | docs/atmosphere-libs-mitm-domain-id-collision.patch:231-247 | turns a reserved id into a registered one; aborts exactly when it is not reserved |
| DomainIds.DomainManager.FindReserved | docs/atmosphere-libs-mitm-domain-id-collision.patch:234-242 | the reserved entry of the id, or none exactly when the source aborts |
| DomainIds.DomainManager.FindRegistered | docs/atmosphere-libs-mitm-domain-id-collision.patch:259-262 | the entry an object of this domain is registered with, or none |
| DomainIds.DomainManager.UnregisterObject | docs/atmosphere-libs-mitm-domain-id-collision.patch:249-269 | returns the object of the id and unbinds just that; the entry is free again |
| DomainIds.DomainManager.NextUnusedId | docs/atmosphere-libs-mitm-domain-id-collision.patch:162-168 | the first valid unused value at or after the counter; the search ends even across the 32-bit wrap |
| DomainIds.DomainManager.ReserveIds | docs/atmosphere-libs-mitm-domain-id-collision.patch:154-175 | as many fresh distinct ids as there are free entries, at most count; all stay reserved on exhaustion |
| DomainIds.DomainManager.ReserveFree | docs/atmosphere-libs-mitm-domain-id-collision.patch:170-172 | reserves one id with one free entry |
| DomainIds.DomainManager.ReserveSpecificIds | docs/atmosphere-libs-mitm-domain-id-collision.patch:177-195 | reserves exactly the valid ids; aborts exactly when one is used or repeated, or entries run out |
| DomainIds.DomainManager.ReserveNext | docs/atmosphere-libs-mitm-domain-id-collision.patch:180-194 | one turn of that loop, with the invalid id skipped |
| DomainIds.DomainManager.ReserveOne | docs/atmosphere-libs-mitm-domain-id-collision.patch:186-193 | reserves the id, or aborts exactly when it is in use or no entry is free |
| DomainIds.DomainManager.UnreserveIds | docs/atmosphere-libs-mitm-domain-id-collision.patch:218-229 | frees exactly the ids; aborts exactly when one is not reserved |
| DomainIds.DomainManager.UnreserveOne | docs/atmosphere-libs-mitm-domain-id-collision.patch:220-228 | one turn of that loop |
| DomainIds.DomainManager.ToRegistered | docs/atmosphere-libs-mitm-domain-id-collision.patch:243-246 | an entry moves from the reserved or free list to the end of the registered list |
| DomainIds.DomainManager.ToReserved | docs/atmosphere-libs-mitm-domain-id-collision.patch:170-171 | an entry moves from the free to the end of the reserved list |
| DomainIds.DomainManager.ToFree | docs/atmosphere-libs-mitm-domain-id-collision.patch:223-227 | an entry goes back to the pool |
| DomainIds.DomainManager.FreeFront | docs/atmosphere-libs-mitm-domain-id-collision.patch:112-129 | the front entry of a list goes back to the pool and no other domain is touched |
| DomainIds.DomainManager.FreeAllEntries | docs/atmosphere-libs-mitm-domain-id-collision.patch:112-123 | empties the registered list |
| DomainIds.DomainManager.FreeAllReserved | docs/atmosphere-libs-mitm-domain-id-collision.patch:124-129 | empties the reserved list |
| DomainIds.DomainManager.EmptyDomain | docs/atmosphere-libs-mitm-domain-id-collision.patch:111-130 | the lists are empty and no other domain is touched |
| DomainIds.DomainManager.DestroyDomain | docs/atmosphere-libs-mitm-domain-id-collision.patch:111-130 | every id of the domain is gone, every other domain is as before, and exactly the entries of the domain have joined the free ones |
| DomainIds.ShiftGood | docs/atmosphere-libs-mitm-domain-id-collision.patch:154-269 | every move of an entry keeps each entry in exactly one of free, one domain's reserved, one domain's registered list, with ids valid and distinct within a domain |
| DomainIds.ShiftMeans | docs/atmosphere-libs-mitm-domain-id-collision.patch:154-269 | what a move means for the map from (domain, id) to objects: one binding goes or comes, all others stay |
| DomainIds.SearchIsShort | docs/atmosphere-libs-mitm-domain-id-collision.patch:165-168 | the search for a generated id skips no more values than are taken |
| DomainRuns.FreeIsRoom | docs/atmosphere-libs-mitm-domain-id-collision.patch:103-109 | the free entries are as many as the table of registered objects and reserved ids leaves of the pool |
| DomainRuns.Perform | docs/atmosphere-libs-mitm-domain-id-collision.patch:111-287 | every call on the manager is answered as that table demands, and leaves the pool standing for the table after the call |
| DomainRuns.Record | docs/atmosphere-libs-mitm-domain-id-collision.patch:111-287 | one call more of a run keeps all of that, unless it aborts |
| DomainRuns.Run | docs/atmosphere-libs-mitm-domain-id-collision.patch:111-287 | any sequence of creates, destroys, registrations, mirrored registrations, reservations, releases and lookups on a fresh manager, up to the first abort, is answered call by call as the table demands: which calls refuse or abort, what is found, how many ids are drawn |
| DomainRuns.GetFindsLastRegistered | docs/atmosphere-libs-mitm-domain-id-collision.patch:249-287 | in every such run a lookup finds the object last registered in that domain under that id and neither unregistered since nor lost with its domain |
| DomainRuns.OwnCallsDecide | docs/atmosphere-libs-mitm-domain-id-collision.patch:103-109 | what a domain holds after a run is what its own calls alone would have left |
| DomainRuns.DomainsDoNotInterfere | docs/atmosphere-libs-mitm-domain-id-collision.patch:103-109 | two runs with the same calls of one domain, whatever happened in others under equal ids or not: the next call of that domain is answered alike if the pool has as much room for it; a draw of ids agrees in success and number, and only which ids are drawn may differ |
| LanDiscovery.LANDiscovery.StationCount | ldn_mitm/source/lan_discovery.cpp:880-890 | the slots in use |
| LanDiscovery.LANDiscovery.FreeStation | ldn_mitm/source/lan_discovery.cpp:441-448 | the first free slot |
| LanDiscovery.LANDiscovery.ResetStations | ldn_mitm/source/lan_discovery.cpp:874-878 | every slot is free and without socket |
| LanDiscovery.LANDiscovery.UpdateNodes | ldn_mitm/source/lan_discovery.cpp:892-926 | flags, numbers and count of the table follow the slots; one snapshot is broadcast and sent to every connected TCP station; changes are noted and peers published |
| LanDiscovery.LANDiscovery.OverrideNodes | ldn_mitm/source/lan_discovery.cpp:894-902 | every station writes its node |
| LanDiscovery.LANDiscovery.SyncSockets | ldn_mitm/source/lan_discovery.cpp:914-921 | the snapshot goes to exactly the connected stations with a socket |
| LanDiscovery.LANDiscovery.IsNodeStateChanged | ldn_mitm/source/lan_discovery.cpp:747-762 | marks and last flags afterwards, and whether any flag differed |
| LanDiscovery.LANDiscovery.NoteNode | ldn_mitm/source/lan_discovery.cpp:751-759 | the same for one node |
| LanDiscovery.LANDiscovery.InitNodeStateChange | ldn_mitm/source/lan_discovery.cpp:738-745 | all marks and last flags cleared |
| LanDiscovery.LANDiscovery.PublishSessionRegistry | ldn_mitm/source/lan_discovery.cpp:928-969 | publishes the non-blank foreign addresses of the first nodeCount nodes, or nothing without an address |
| LanDiscovery.LANDiscovery.GetNetworkInfo | ldn_mitm/source/lan_discovery.cpp:1117-1140 | hands over and clears exactly the first bufferCount marks; refused outside a session |
| LanDiscovery.LANDiscovery.SessionScopeToken | ldn_mitm/source/lan_discovery.cpp:500-507 | the FNV-1a token of the session id, never 0 |
| LanDiscovery.LANDiscovery.SendRelayScope | ldn_mitm/source/lan_discovery.cpp:510-529 | claims the session's token exactly while hosting or joined |
| LanDiscovery.LANDiscovery.SendRelayBye | ldn_mitm/source/lan_discovery.cpp:531-550 | says goodbye as host or as joined station, else nothing |
| LanDiscovery.LANDiscovery.OnSyncNetwork | ldn_mitm/source/lan_discovery.cpp:377-428 | wrong network or stale stamp: nothing changes; otherwise as Applied |
| LanDiscovery.LANDiscovery.AcceptStamp | ldn_mitm/source/lan_discovery.cpp:390-398 | accepts exactly what is not stale and remembers it |
| LanDiscovery.LANDiscovery.ApplySync | ldn_mitm/source/lan_discovery.cpp:399-428 | takes over the node list and becomes a station exactly when not waiting or listed |
| LanDiscovery.LANDiscovery.TakeOver | ldn_mitm/source/lan_discovery.cpp:399-424 | the node list, the time of hearing the host and the state, before anything is noted or published |
| LanDiscovery.LANDiscovery.HostListsUs | ldn_mitm/source/lan_discovery.cpp:408-414 | whether a connected node has our address |
| LanDiscovery.LANDiscovery.ReadSyncNetwork | ldn_mitm/source/lan_discovery.cpp:219-235 | a sync is looked at only while browsing or joined |
| LanDiscovery.LANDiscovery.OnRelayConnect | ldn_mitm/source/lan_discovery.cpp:456-492 | a known address is re-synced, a new one gets the first free slot, a full table ignores it |
| LanDiscovery.LANDiscovery.FindHolder | ldn_mitm/source/lan_discovery.cpp:467-475 | the first slot in use with that address |
| LanDiscovery.LANDiscovery.ReadConnect | ldn_mitm/source/lan_discovery.cpp:206-218 | Connect is heard only by a host |
| LanDiscovery.LANDiscovery.ReadHeartbeat | ldn_mitm/source/lan_discovery.cpp:236-260 | refreshes exactly the relay-only stations of that address, in our network only |
| LanDiscovery.LANDiscovery.ReadBye | ldn_mitm/source/lan_discovery.cpp:261-303 | the host's goodbye ends a station's session; a station's frees its slots |
| LanDiscovery.LANDiscovery.DropMatching | ldn_mitm/source/lan_discovery.cpp:286-295 | frees exactly the relay-only slots of that address |
| LanDiscovery.LANDiscovery.ReadScan | ldn_mitm/source/lan_discovery.cpp:164-179 | answers at most every 2000 ms |
| LanDiscovery.LANDiscovery.ReadLocalScan | ldn_mitm/source/lan_discovery.cpp:69-75 | a scan of the local network is always answered while hosting |
| LanDiscovery.LANDiscovery.ReadScanResp | ldn_mitm/source/lan_discovery.cpp:180-195 | an advertisement of the joined network counts as its host being alive |
| LanDiscovery.LANDiscovery.OnDisconnectFromHost | ldn_mitm/source/lan_discovery.cpp:552-571 | only a joined station falls back to browsing, with the reason |
| LanDiscovery.LANDiscovery.OnConnect | ldn_mitm/source/lan_discovery.cpp:430-454 | an accepted connection gets the first free slot, or is refused exactly when there is none |
| LanDiscovery.LANDiscovery.StationRead | ldn_mitm/source/lan_discovery.cpp:27-51 | a TCP station becomes connected with the record it sent |
| LanDiscovery.LANDiscovery.StationClose | ldn_mitm/source/lan_discovery.cpp:53-57 | its slot is freed and the table synchronised |
| LanDiscovery.LANDiscovery.WorkerTick | ldn_mitm/source/lan_discovery.cpp:1012-1096 | every 5000 ms: announce, claim the scope, give up silent peers |
| LanDiscovery.LANDiscovery.CheckPeers | ldn_mitm/source/lan_discovery.cpp:1064-1094 | host and station side of giving up peers |
| LanDiscovery.LANDiscovery.ReapSilent | ldn_mitm/source/lan_discovery.cpp:1066-1076 | frees exactly the relay-only stations silent for 30000 ms |
| LanDiscovery.LANDiscovery.CreateNetwork | ldn_mitm/source/lan_discovery.cpp:1171-1232 | a network of ours exactly from AccessPoint with a socket and two lookups of our address; if only the second fails the identifier is set and the flags are cleared, and the state stays |
| LanDiscovery.LANDiscovery.FillOwnNode | ldn_mitm/source/lan_discovery.cpp:1141-1159 | ourselves as node 0, every other node untouched |
| LanDiscovery.LANDiscovery.InitNetworkInfo | ldn_mitm/source/lan_discovery.cpp:598-615 | identifier and cleared flags |
| LanDiscovery.LANDiscovery.DestroyNetwork | ldn_mitm/source/lan_discovery.cpp:1234-1248 | goodbye, registry and queue cleared, slots freed |
| LanDiscovery.LANDiscovery.OpenAccessPoint | ldn_mitm/source/lan_discovery.cpp:1289-1307 | slots freed; refused only when not initialized |
| LanDiscovery.LANDiscovery.CloseAccessPoint | ldn_mitm/source/lan_discovery.cpp:1309-1327 | goodbye, everything cleared |
| LanDiscovery.LANDiscovery.OpenStation | ldn_mitm/source/lan_discovery.cpp:1329-1354 | slots freed and no join target |
| LanDiscovery.LANDiscovery.CloseStation | ldn_mitm/source/lan_discovery.cpp:1356-1373 | everything cleared, no goodbye |
| LanDiscovery.LANDiscovery.Disconnect | ldn_mitm/source/lan_discovery.cpp:1250-1269 | goodbye, no join target; the slots are not touched |
| LanDiscovery.LANDiscovery.SetAdvertiseData | ldn_mitm/source/lan_discovery.cpp:580-596 | data of at most 384 bytes is taken over and synchronised |
| LanDiscovery.LANDiscovery.Connect | ldn_mitm/source/lan_discovery.cpp:1375-1421 | refuses an empty network and our own address; otherwise the target is recorded before anything is sent |
| LanDiscovery.LANDiscovery.ConnectPoll | ldn_mitm/source/lan_discovery.cpp:1422-1434 | seeing the join arms peer-loss detection |
| LanDiscovery.LANDiscovery.ConnectFallBack | ldn_mitm/source/lan_discovery.cpp:1450-1453 | a direct join need not be listed |
| LanDiscovery.LANDiscovery.Initialize | ldn_mitm/source/lan_discovery.cpp:1706-1781 | a fresh session over the relay or not |
| LanDiscovery.LANDiscovery.Finalize | ldn_mitm/source/lan_discovery.cpp:1583-1634 | everything cleared |
| LanDiscovery.LANDiscovery.UdpClose | ldn_mitm/source/lan_discovery.cpp:104-123 | the first recorded cause is kept |
| LanDiscovery.LANDiscovery.OverrideInfo | ldn_mitm/source/lan_discovery.hpp:94-102 | a station writes its number and connectedness into its node |
| LdnState.FakeMacInjective | ldn_mitm/source/lan_discovery.cpp:617-629 | different addresses give different network identifiers |
| LdnState.ScopeToken | ldn_mitm/source/lan_discovery.cpp:500-507 | the token of a session is never 0, which means no session |
| ScopeTokens.TokensApart | ldn_mitm/source/lan_discovery.cpp:500-507 | sessions that differ in one byte have different tokens, unless one hash is 0 and is replaced by 1, the other |
| ScopeTokens.FnvVector | ldn_mitm/source/lan_discovery.cpp:500-507 | the hash gives the published value of 32-bit FNV-1a for the byte of the letter a |
| LdnRuns.RoomMeansFreeSlot | ldn_mitm/source/lan_discovery.cpp:477-491 | after the capacity check a free slot exists: the "no free slot" fall-throughs are unreachable |
| LdnRuns.UpdateSetsFlags | ldn_mitm/source/lan_discovery.cpp:892-926 | synchronising sets flags, numbers and count, and touches no address, no other node and not our own |
| LdnRuns.EventKeepsHost | ldn_mitm/source/lan_discovery.cpp:164-492 | every event of every kind keeps the host's table in order |
| LdnRuns.HostTable | ldn_mitm/source/lan_discovery.cpp:430-492 | after every run that leaves a network open: nodeCount is one more than the connected slots, is the number of connected flags and at most 8, and no address holds two relay-only slots however often Connect came |
| PublishedPeers.EventPublishes | ldn_mitm/source/lan_discovery.cpp:928-969 | every event that updates the node table publishes its peers if the address is known; in a network nothing else changes the table or what is published |
| PublishedPeers.HostPublishes | ldn_mitm/source/lan_discovery.cpp:928-969 | after every run that leaves a network open, what is published are the peers of the table at its last update with a known address, the present table unless one was updated without the address since |
| PublishedPeers.PublishedIsExactIff | ldn_mitm/source/lan_discovery.cpp:941-950 | after every such run without a later update: without gaps in the connected slots exactly the connected addresses are published, and with distinct addresses only without gaps |
| PublishedPeers.NoGapsIsExact | ldn_mitm/source/lan_discovery.cpp:941-950 | for a table: when the connected slots are the first ones, its peers are exactly the connected foreign addresses |
| PublishedPeers.PublishedExactIff | ldn_mitm/source/lan_discovery.cpp:941-950 | for a table with distinct addresses: its peers are exact if and only if the connected slots have no gap |
| PublishedPeers.GapsMislead | ldn_mitm/source/lan_discovery.cpp:941-950 | a run: two guests join a new network and the first leaves; the one who left is published, the one who stayed is not |
| PublishedPeers.StaleMisleads | ldn_mitm/source/lan_discovery.cpp:928-940 | a run: a guest joins while the address lookup fails; nobody is published |
| PeerLoss.TickDropsExactlySilent | ldn_mitm/source/lan_discovery.cpp:1064-1076 | a worker turn drops a station exactly when hosting, a beacon is due, and it joined over the relay and was silent for 30000 ms |
| PeerLoss.SilentPeersGo | ldn_mitm/source/lan_discovery.cpp:1005-1094 | over every timed run whose worker pauses at most p ms: whoever is still in the table over the relay, and the host of a joined station, was heard less than 35000 + p ms ago |
| PeerLoss.HearingStamps | ldn_mitm/source/lan_discovery.cpp:236-303 | a heartbeat of a relay-only station, or a Connect whose address its slot is the first to hold, stamps its slot; no frame but its own goodbye drops it |
| PeerLoss.ConnectCountsIff | ldn_mitm/source/lan_discovery.cpp:467-475 | a Connect counts for a slot if and only if the slot holds its address and no earlier slot in use does |
| Heartbeats.ConsolesKeepSpeaking | ldn_mitm/source/lan_discovery.cpp:1012-1047 | over every timed run whose worker pauses at most p ms: a console on the relay started, or said what it is (host: its network; joined station: its heartbeat; else a keepalive) and claimed its scope, less than 5000 + p ms ago |
| Heartbeats.JoinedStationBeats | ldn_mitm/source/lan_discovery.cpp:1025-1034 | a station that has been joined to a network for 5000 + p ms sent a heartbeat in that time, with the identifier it aims at and the address it joined with |
| Heartbeats.BeatingStationStays | ldn_mitm/source/lan_discovery.cpp:236-260 | over every run of a host that keeps hosting: a station that joined over the relay and whose heartbeats come less than 30000 ms apart is never dropped, short of its goodbye |
| Heartbeats.HeardHostKeeps | ldn_mitm/source/lan_discovery.cpp:180-195 | over every run: a joined station that hears advertisements of its network less than 30000 ms apart stays in the session, unless it is told goodbye, loses a socket or its game leaves |
| LessonRuns.NamesItselfIff | ldn_mitm/source/lan_discovery.cpp:180-249 | an event makes a console give a real address that is neither its own nor none, in a frame others learn from, if and only if it does not host and broadcasts a list with somebody else as its host |
| LessonRuns.TeachesOwnIff | ldn_mitm/source/lan_discovery.cpp:180-249 | in every run: whatever real address a control frame gives is its sender's own, if and only if no move is of that kind |
| LessonRuns.CleanRunsTeachRightIff | ldn_mitm/source/lan_discovery.cpp:180-249 | over every run without such moves, whichever frames arrive in whatever order: what a console knows for the real address of another is its virtual address or nothing, if and only if no console with that real address could mislead it |
| LessonRuns.AllRunsTeachRightIff | ldn_mitm/source/lan_discovery.cpp:180-249 | over every run at all that holds if and only if no other console could mislead it, whatever its real address |
| LessonRuns.StraysTeachWrong | ldn_mitm/source/lan_discovery.cpp:580-596 | a run in which no address need be shared: a console aims at a network and hears its list, its game sets advertise data, and the list it broadcasts teaches its own virtual address for the real one of the host |
| LessonRuns.HeartbeatsNameTarget | ldn_mitm/source/lan_discovery.cpp:1025-1034 | only a joined console sends heartbeats, each with the identifier it aims at |
| LessonRuns.HeartbeatStampsIff | ldn_mitm/source/lan_discovery.cpp:236-260 | in every run a heartbeat stamps the slot a host has for its sender over the relay if and only if the sender aims at a network of the address of that host; any other host is left as it was |
| NodeChanges.MarkTellsFlips | ldn_mitm/source/lan_discovery.cpp:747-762 | for one node: the mark is a function of the flips since the last hand-over |
| NodeChanges.MarkReads | ldn_mitm/source/lan_discovery.cpp:752-756 | the four mark values distinguish no flip, one up, one down, two or more |
| NodeChanges.MarksAreExact | ldn_mitm/source/lan_discovery.cpp:738-762 | over every run of table updates and hand-overs with 0/1 flags: None iff no flip since the last hand-over, Connect iff a single one up, Disconnect iff a single one down, 3 iff two or more |
| NodeChanges.TableFollowsNodes | ldn_mitm/source/lan_discovery.cpp:1129-1133 | the table treats every node independently; handing over the first n clears exactly theirs |
| SessionMarks.EventMarks | ldn_mitm/source/lan_discovery.cpp:738-762 | every event of a session looks at the node table it leaves, hands marks over or clears them exactly as said, and nothing else touches the marks |
| SessionMarks.SessionMarksAreExact | ldn_mitm/source/lan_discovery.cpp:1117-1140 | the same for every run of a whole session: the marks a game is handed say exactly how each node flipped since it last asked |
| SyncFilter.StampsFollow | ldn_mitm/source/lan_protocol.cpp:199-202 | the n-th stamp of a socket in closed form |
| SyncFilter.FilterDecides | ldn_mitm/source/lan_discovery.cpp:390-398 | a sync at most 254 packets older or 65279 newer than the last applied one is dropped exactly when it is no newer |
| SyncFilter.WindowIsExact | ldn_mitm/source/lan_discovery.cpp:391 | these bounds cannot be widened: within a round, the check is right for all pairs at distance k if and only if -254 <= k <= 65279 |
| SyncFilter.FreshJoinAppliesRecords | ldn_mitm/source/lan_discovery.cpp:390-398 | over runs of any length within the window a fresh join applies exactly the arrivals newer than all before |
| SyncFilter.RecordsIncrease | ldn_mitm/source/lan_discovery.cpp:386-389 | so what is applied increases strictly |
| SyncFilter.RecordsComplete | ldn_mitm/source/lan_discovery.cpp:386-389 | and nothing newer than all before it is dropped |
| SyncFilter.NewestListWins | ldn_mitm/source/lan_discovery.cpp:377-428 | after any orderly run of syncs the station holds the newest node list that reached it |
| SyncFilter.UnstampedTakenOver | ldn_mitm/source/lan_discovery.cpp:390-401 | a sync without a stamp is always taken over and leaves the filter as it was |
| JoinSafety.OnlySyncsConnect | ldn_mitm/source/lan_discovery.cpp:402-424 | only a sync of the target network, listing us if we wait for that, makes a browsing console a station |
| JoinSafety.AirIsExplained | ldn_mitm/source/lan_discovery.cpp:892-926 | in every world of every run, every snapshot on the air was shown by some console in that or an earlier world, with flags matching its stations |
| JoinSafety.JoinsWereListed | ldn_mitm/source/lan_discovery.cpp:377-428 | in every run over a network that loses, repeats and reorders: the list a waiting console joins on was shown before by a console that had its address in a connected slot, under the identifier aimed at; whether that console hosted is not said |
| StraySyncs.StraysIff | ldn_mitm/source/lan_discovery.cpp:580-596 | a snapshot leaves a console that does not host if and only if it takes advertise data, or a TCP station introduces itself or is lost, while it does not host and somebody is listening |
| StraySyncs.HostsSpeakIff | ldn_mitm/source/lan_discovery.cpp:892-926 | in every run: whoever sends a snapshot hosts the network it shows, as its owner, if and only if no move is of that kind |
| StraySyncs.JoinsAreConfirmed | ldn_mitm/source/lan_discovery.cpp:377-428 | in every run over a network that loses, repeats and reorders, in which no such move happened before: a console waiting to be listed becomes a station only after another console, in AccessPointCreated at the address the target identifier stands for, held its address in a connected slot; what it stores is that host's node list, and the scope it claims is that session's |
| StraySyncs.AdvertsAreOwn | ldn_mitm/source/lan_discovery.cpp:164-179 | only a host advertises, and only its own network |
| JoinOwners.JoinedNetworksWereAdvertised | ldn_mitm/source/lan_discovery.cpp:1375-1421 | every network a waiting console joins was advertised, by a console at the address its identifier stands for |
| JoinOwners.ConfirmsItselfIff | ldn_mitm/source/lan_discovery.cpp:617-629 | without such moves every join aimed at an identifier that a console advertised was confirmed by that console itself, in every run, if and only if no other console has its address, or there is nobody who could join it |
| JoinOwners.SharedAddressMisleads | ldn_mitm/source/lan_discovery.cpp:617-629 | a run without such moves: two hosts share an address, a third console aims at the network of one, the other enrols it, and it joins on the list of the other |
| JoinOwners.EnrolledElsewhere | ldn_mitm/source/lan_discovery.cpp:206-218 | a run: a console asks to join one host and another, hearing the Connect, enrols it; it aims at the network of the other if and only if the two have one address |
| JoinStories.StraysCanMislead | ldn_mitm/source/lan_discovery.cpp:1250-1269 | a run: a console hosts, takes a TCP connection, leaves and looks at another network; its TCP station introduces itself, and a third console joins the other network on the list it sends, though no host ever had a station |
| JoinSafety.StoredListsWerePublished | ldn_mitm/source/lan_discovery.cpp:399-401 | every node list a station takes over was shown under the network it aims at |
| JoinSafety.ForeignFramesIgnored | ldn_mitm/source/lan_discovery.cpp:377-385 | no frame about another network, and no Connect or Scan, changes a browsing or joined console |
| JoinSafety.ConnectRegistersIff | ldn_mitm/source/lan_discovery.cpp:456-492 | after a Connect a host has the station if and only if it had it before, or no slot in use holds its address and there is room |
| JoinSafety.LeftOverKeepsOwnerOut | ldn_mitm/source/lan_discovery.cpp:467-475 | a run: a station joins a new network and leaves, a TCP connection is accepted into its slot, and when it asks to join again it is not registered, with six slots free |
| JoinSafety.ConnectIsAnswered | ldn_mitm/source/lan_discovery.cpp:464-488 | whenever it has it, the Connect is answered with a snapshot that shows the table |
| JoinSafety.RegisteredThenSynced | ldn_mitm/source/lan_discovery.cpp:399-416 | a fresh snapshot of a host that has the station makes the waiting station one |
| SessionLife.HandshakeSucceeds | ldn_mitm/source/lan_discovery.cpp:1375-1434 | any console that looks for networks over the relay and any host with room and without its address: its request is enrolled and answered, the answer makes it a station with the table of the host and the scope of the session, and its heartbeats stamp the slot it got |
| SessionLife.SelfConnectRefused | ldn_mitm/source/lan_discovery.cpp:1376-1392 | a network of the own address, or with nobody in it, is not joined, and nothing changes |
| SessionLife.DirectJoinNeedsNoListing | ldn_mitm/source/lan_discovery.cpp:1445-1453 | a waiting console does not join on a list without it; after it gave up the wait for a direct connection it does |
| SessionLife.CreatedAsAsked | ldn_mitm/source/lan_discovery.cpp:1171-1232 | a created network has the session asked for, the identifier of the own address and ourselves as its first node; it is synchronised, advertised from then on, and its scope is claimed |
| SessionLife.GoodbyeFreesSlots | ldn_mitm/source/lan_discovery.cpp:261-303 | a joined console that leaves says goodbye, and the host it aims at frees exactly the relay slots of its address and sends out the table |
| SessionLife.HostGoodbyeEnds | ldn_mitm/source/lan_discovery.cpp:261-285 | a host that closes its network says goodbye, and each station of it is back to browsing, told that it was the doing of the host |
| SessionLife.StationGivesUpIff | ldn_mitm/source/lan_discovery.cpp:1078-1094 | a worker turn makes a joined station give up if and only if a beacon is due and nothing was heard of the host for 30000 ms; the reason is the lost signal |
| SessionLife.LeavingUnpublishes | ldn_mitm/source/lan_discovery.cpp:1234-1373 | however a session is left, no peers stay published |
| SessionLife.OpeningForgets | ldn_mitm/source/lan_discovery.cpp:1289-1354 | opening an access point or a station forgets the last reason, and a station also its target: no list moves it before the next join |
| SessionLife.ScanAnsweredIff | ldn_mitm/source/lan_discovery.cpp:164-179 | after every run a scan over the relay is answered with the network if and only if the console hosts and has not advertised for 2000 ms; one on the local network by every host |
| SessionLife.SnapshotReachesIff | ldn_mitm/source/lan_discovery.cpp:903-921 | a synchronised table goes out over the relay, if that is used, and to exactly the connected stations with a socket |
| SessionLife.TcpStationServed | ldn_mitm/source/lan_discovery.cpp:27-57 | with room a TCP station is accepted into the first free slot, connected, listed and sent the table when it introduces itself, and gone from the table when its connection is; no other slot changes |
| SessionLife.DataReachesStations | ldn_mitm/source/lan_discovery.cpp:580-596 | advertise data of at most 384 bytes reaches the stations with the snapshot sent at once, and scanners with the next advertisement; longer data changes and sends nothing |
| SessionLife.EndedIsQuiet | ldn_mitm/source/lan_discovery.cpp:1583-1634 | after every run that is then finalized: no frame, connection or worker turn changes anything or makes the console speak, until the next request of the game |
| SessionLife.UdpLossIsFinal | ldn_mitm/source/lan_discovery.cpp:104-123 | losing the local network ends the session with the reason that fits, and no frame revives it |
| ConfigText.UnlinesReadBack | ldn_mitm/source/relay_client.cpp:179-181 | writing lines and splitting them again gives the lines |
| ConfigText.AtoiDecimal | ldn_mitm/source/relay_client.cpp:276-277 | a printed number reads back |
| ConfigFiles.AtoiSigned | ldn_mitm/source/relay_client.cpp:196-201 | a number may carry a sign and white space in front |
| ConfigText.ParseServer | ldn_mitm/source/relay_client.cpp:210-244 | a server name is 1 to 31 characters without white space |
| ConfigFiles.EntryReads | ldn_mitm/source/relay_client.cpp:209-244 | an entry of a name of at most 31 characters, a host and a port or none, with at most 63 characters for both, is read as exactly that server: the given port from 1 to 65535, 11451 without one, and no server with any other |
| ConfigFiles.BareReadsIff | ldn_mitm/source/relay_client.cpp:210-215 | an address without a name is read with its host and port if and only if it has at most 31 characters |
| ConfigFiles.FileLoads | ldn_mitm/source/relay_client.cpp:156-261 | a file of remarks, settings and server entries in any order, with any indentation, separators, line ends and blank lines, that fits the read buffer: every setting is what its last line says, and the servers are the entries up to the eighth |
| ConfigFiles.SelectionIsFirst | ldn_mitm/source/relay_client.cpp:247-259 | the selected server is the first of the persisted name, without blanks behind it |
| RelayConfig.Settings.LoadConfig | ldn_mitm/source/relay_client.cpp:156-261 | the settings are those Load reads from the file |
| RelayConfig.Settings.TakeLine | ldn_mitm/source/relay_client.cpp:182-244 | one line changes the settings as ReadLine says |
| RelayConfig.Settings.Restore | ldn_mitm/source/relay_client.cpp:247-259 | the selection is the first server of the persisted name, else the first |
| RelayConfig.Settings.PersistConfig | ldn_mitm/source/relay_client.cpp:267-302 | the new file is Persisted |
| RelayConfig.Settings.HeaderText | ldn_mitm/source/relay_client.cpp:272-283 | the settings as lines |
| RelayConfig.Settings.CopyLines | ldn_mitm/source/relay_client.cpp:285-302 | the other lines follow while they fit |
| RelayConfig.PersistKeepsLines | ldn_mitm/source/relay_client.cpp:267-302 | the written file is the settings followed by every non-blank line that is no setting, in order |
| RelayConfig.PersistIsIdempotent | ldn_mitm/source/relay_client.cpp:267-302 | persisting twice writes the same file, if it fits the read buffer |
| ConfigRoundTrip.LinesOfPrefix | ldn_mitm/source/relay_client.cpp:139-151 | the lines in the first n characters of a written file: the whole ones, and perhaps one that is torn |
| ConfigRoundTrip.PersistThenLoadIff | ldn_mitm/source/relay_client.cpp:156-302 | for any settings over a file's server list: loading the rewritten file restores every setting and the list if and only if the list is full before what the read buffer cuts off, or the torn line gives the very servers that were cut off and changes no setting |
| RelayConfig.PersistThenLoad | ldn_mitm/source/relay_client.cpp:156-302 | in particular if the written file fits the read buffer |
| RelayConfig.SelectionSurvivesIff | ldn_mitm/source/relay_client.cpp:203-259 | and the selection too if and only if no earlier server has the selected one's name, provided that does not begin with = |
| RelayConfig.LoadIsSound | ldn_mitm/source/relay_client.cpp:196-245 | whatever the file holds, loading yields an acceptable id and at most eight well-named servers |
| RelayConfig.PersistCanLoseServers | ldn_mitm/source/relay_client.cpp:139-151 | a file that fits can outgrow the 1023-byte read buffer by being persisted, and then loses its server |

## Left out

- Sockets, poll, nifm, threads, mutexes and logging are inputs or absent; each locked region is one atomic step, and check-then-act sequences around a lock are taken as one.
- A send that fails midway through the fragments of a packet is not distinguished from losing the rest.
- Opening and closing the relay transport; its own addresses are constant while it is open.
- LanDiscovery.LANDiscovery.WorkerTick: probing the server and reopening a dead path are left out; the probe counters themselves are in RelayTransport.
- Hostname resolution and the numeric address of a configured server; a server entry keeps its host text.
- The reassembly buffers are sequence values inside an array of slots, not separate byte arrays.
- A domain's lists are entries of the manager's map; AllocateEntry takes any free entry, and taking an entry off the free list happens together with listing it. The source's aborts are results.
- DomainIds.DomainManager.DestroyDomain: the object's own reset is not modelled, only that its entry is free and its id gone.
- TunnelRuns.StreamsAreFaithful: channels between consoles are loss-free and first-in first-out, and a frame handed to the relay is accepted; bytes lost by the relay, and bytes still pending when a Close arrives, are lost in the code too.
- TunnelTable.TcpRelay.RedirectConnect: the redirected connect's own return code and the choice of loopback or real address are inputs.
- ServerRuns.UnicastGoesHome: the server does not check idleness before a unicast, so the endpoint may be a silent one; nor can an unscoped sender reach a scoped peer.
- RelayServer.Server.OnDatagram: errors of single sends are not modelled, and clock readings are real numbers.
- DomainRuns.Run: a domain is created before it is used and not twice, as its callers' object references ensure; a run ends at the first abort; which ids are drawn is left to DomainIds.DomainManager.NextUnusedId.
- Delivery.CutDatagramDelivered: a frame is sent to an endpoint the server knows for the peer, and arrives; loss is an arrival that does not happen.
- FragmentRuns.RunsReturnExactly: at most four packets in progress and no fragment of a packet after it completed, as a fifth packet evicts one (FragmentEviction says which) and a late duplicate claims a slot.
- FragmentEviction.ReturnedIffInTime: a packet whose first parts are sent again after it was displaced may still complete; when it does is not said.
- ServerLife.KeptAliveIsReached: an endpoint whose own declaration lapses is left out; ServerRuns.LapseStrandsKeys shows what becomes of its unicasts.
- TunnelLive.ReadBytesArrive: a socket that takes what it is given is an assumption on the local game; without it bytes wait, and more than 8192 of them end the stream.
- Heartbeats.BeatingStationStays: how long a heartbeat is under way is not modelled; it counts when it arrives.
- ConfigFiles.FileLoads: entries whose name is the word of a setting are settings to the code, and are left out here.
- FragmentRuns.RunsReturnSentPackets: a (source, id) pair is not reused for another packet while fragments of the first may arrive; the 16-bit id wraps after 65536 fragmented packets.
- LanDiscovery.LANDiscovery.PublishSessionRegistry: the broadcast address is an input, not computed from the netmask.
- LanDiscovery.LANDiscovery.Connect: the retransmission timer and the TCP connect with its timeouts are left out; that its wait ended, gave up or connected directly are separate steps, and any number of Connect frames may arrive at a host.
- LanDiscovery.LANDiscovery.OpenAccessPoint: rebuilding a session whose relay mode changed or that a sleep gutted is the separate steps Finalize and Initialize.
- LanDiscovery.LANDiscovery.OpenStation: the same.
- LanDiscovery.LANDiscovery.ReadScanResp: the scan results it stores for the game are left out.
- LanDiscovery.LANDiscovery.Initialize: the failures of setting up sockets and transport are left out.
- LanDiscovery.LANDiscovery.UdpClose: the flag that the session needs rebuilding is left out.
- LanDiscovery.LANDiscovery.CreateNetwork: channel, security mode, intent id and the node count limit are not modelled; the limit is not enforced by the code, only the seven slots are. Our address does not change between its two lookups.
- LanDiscovery.LANDiscovery.FillOwnNode: the hardware address and the game's version in our node are left out.
- LanDiscovery.LANDiscovery.InitNetworkInfo: channel, link level, network type and network name are left out.
- LessonRuns.TeachesOwnIff: an answer to a local scan counts as an advertisement though it teaches nothing; it names its host.
- LanDiscovery.LANDiscovery.SetAdvertiseData: the result code is a success flag.
- Scanning, scan filters, MTU handling, ConnectPrivate, lanEvent callbacks and the local UDP discovery socket, apart from its answers to scans and its loss.
- StraySyncs.JoinsAreConfirmed: consoles keep their address, a join's target was advertised, over the relay or in answer to a local scan, and a console whose address lookup fails does not try to join a network of its own address.
- JoinSafety.ForeignFramesIgnored: learning of virtual addresses from such frames happens in the transport (RelayTransport.RelayTransport.LearnPeer).
- A station may be connected again after its host's goodbye, since its target stays recorded; nothing here says otherwise.
- PeerLoss.SilentPeersGo: the worker's pause between turns is a parameter; the wait inside poll and a blocking reconnect are part of it.
- NodeChanges.MarksAreExact: connected flags are 0 or 1, as hosts write them; other values from the wire are compared as the code does but not characterised.
- RelayConfig.Settings.LoadConfig: numbers too long for a C int are read without overflow.
- RelayConfig.Settings.PersistConfig: the file operations succeed; a failed write leaves whatever the file system leaves.
- The bsd service hooks, the LDN service interfaces, the overlay and the configuration service.
