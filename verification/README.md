# Dafny model of the relay and the adapter

The repository is a replacement for the peer-to-peer networking of a game. A *relay* server keeps
sessions of players and routes their packets over UDP and TCP. An *adapter* runs beside the game,
speaks the GPGNet binary protocol with it and JSON-RPC with the lobby client, and connects the game
to each other player either through the relay or through an ICE connection of its own.

The model follows the components and their locks. Where the program runs several threads, one step
of the model is one critical section, and the theorems range over every interleaving of such steps.
What the program updates in place is a class; each method is proved to be the step of the state
machine it stands for, and the properties are proved of that state machine.

| files | what they model |
|---|---|
| `Bytes`, `Escapes`, `GpgNet` | byte order, the escape replacement, GPGNet messages and their streams |
| `JsonFraming` | cutting JSON messages out of a byte stream by counting braces |
| `RelayWire` | relay packets, length-prefixed TCP frames, and what each side writes and reads |
| `PlayerTransport` | one player's record: address pinning, transport, rate limit, as a function of its history |
| `SessionTable`, `SessionRuns`, `ReaperCycle`, `Registrations` | the session table, its runs, the two-phase reaper, and records against histories |
| `SessionManager` | the session table in place: sessions, manager and reaper as classes with loops |
| `Routing`, `RoutingAccounts`, `PacketFates`, `Router` | packets under way, isolation, exactly-once attempts, counters; how packets are looked up and judged; the router in place |
| `EndToEnd` | a packet from one adapter's wire through a run of the relay to another adapter |
| `FailingRuns` | runs in which something goes wrong that one would expect to go right |
| `HttpLimits` | the request limiters of the HTTP interface |
| `PeerTable`, `PeerManager`, `RestartRace` | peers, sockets and identities; the peer manager in place; restarts racing with it and sharing a budget |
| `RestartBudget` | the retry budget, backoff and frozen duration shared by restart callbacks |
| `LobbyQueue` | the queue of messages for a game whose lobby is not ready |
| `EarlyBuffer` | game data arriving before the game's address is known |

Some properties one would expect are false of the code, and the model says exactly when they hold:

- The reaper trusts the session object it listed. If that session is deleted before the reaper comes
  back, the session gauge goes negative (`SessionRuns.DeletedCandidateBreaksGauge`). A run keeps index, gauges
  and limits right in every state if and only if each reaper step is safe in the state it finds
  (`SessionRuns.ReachableInvIff`), and it is safe when no listed session is deleted
  (`ReaperCycle.ReaperKeepsTable`).
- A refused migration leaves the player registered nowhere: `FailingRuns.LostInMigration` gives the run,
  `SessionTable.JoinOutcome` says exactly when it happens.
- Staleness is not measured from the join: a player can be reaped at the moment it joins an old session
  (`FailingRuns.ReapedOnJoining`). The reaper takes a player if and only if it has been silent for more than
  90 s, counted from its latest accepted packet or else from the creation of its session
  (`Registrations.ReapedIffSilent`).
- A UDP datagram of 1401 to 1500 bytes for a member on TCP ends the relay, because the TCP frame writer
  slices a buffer that is too small (`FailingRuns.OversizedPacketCrashes`). The relay has crashed if and only
  if its last step routed a packet larger than 1400 bytes to a TCP member it was for (`Routing.CrashedIff`).
- The GPGNet reader checks only the upper bound of the argument count: every negative count crashes it
  (`GpgNet.NegativeCountPanics`), and the read loop crashes if and only if some message boundary is followed
  by a readable header and a negative count (`GpgNet.ReaderPanicsIffCountNegative`).
- An ICE peer that took over its socket does not close it when it is removed
  (`PeerTable.RemovedReplacementLeaks`). All open sockets belong to registered peers if and only if no
  removed peer was a replacement (`PeerTable.NothingLeakedIff`).

## Model

| member | source | states |
|---|---|---|
| Escapes.TwoPassesAreOne | internal/protocol/gpgnet.go:112-116 | for every text, replacing "/t" everywhere and then "/n" everywhere equals one left-to-right pass over both |
| Escapes.UnescapeLeavesNoEscape | internal/protocol/gpgnet.go:112-116 | the result holds neither "/t" nor "/n", at any position |
| Escapes.UnescapeKeepsPlainText | internal/protocol/gpgnet.go:112-116 | a text without escapes is unchanged |
| Escapes.EscapesAreReplaced | internal/protocol/gpgnet.go:112-116 | the first escape of a text becomes a tab for "/t" and a line feed for "/n", what precedes it is kept, and the rest is unescaped in turn |
| Escapes.ReplaceEscapesIsIdempotent | internal/protocol/gpgnet.go:112-116 | replacing twice is replacing once |
| GpgNet.Writer.WriteString | internal/protocol/gpgnet.go:147-157 | appends the length-prefixed text, or nothing and an error beyond 65535 bytes |
| GpgNet.Writer.WriteArgs | internal/protocol/gpgnet.go:160-215 | appends count and arguments; on a rejected argument exactly the bytes up to it stay behind |
| GpgNet.ArgsAreWrittenIff | internal/protocol/gpgnet.go:160-215 | an argument list is accepted iff every argument is a number of any kind or a text of at most 65535 bytes |
| GpgNet.MessageIsWrittenIff | internal/protocol/gpgnet.go:218-229 | a message is accepted iff its header has at most 65535 bytes and its arguments are accepted |
| GpgNet.ArgumentBytes | internal/protocol/gpgnet.go:160-215 | the very bytes of every accepted argument: type byte, value or length lowest byte first, text |
| GpgNet.Writer.WriteMessage | internal/protocol/gpgnet.go:218-229 | appends the encoded message; success iff header and arguments are accepted, partial bytes otherwise |
| GpgNet.Reader.ReadInt | internal/protocol/gpgnet.go:33-40 | the signed little-endian value of four bytes, or failure when fewer remain |
| GpgNet.Reader.ReadString | internal/protocol/gpgnet.go:43-58 | the text the prefix announces, failing on a length out of range or a short stream |
| GpgNet.TextIsReadIff | internal/protocol/gpgnet.go:43-58 | a text is read iff its announced length lies in 0..65535 and within the stream |
| GpgNet.Reader.ReadChunks | internal/protocol/gpgnet.go:61-96 | the loop returns the chunk list the grammar decodes and stops at the same place, or fails iff it fails |
| GpgNet.Reader.ReadMessage | internal/protocol/gpgnet.go:99-109 | the message the grammar decodes and the position behind it, or failure |
| GpgNet.ReaderPanicsIffCountNegative | internal/protocol/gpgnet.go:61-70 | for every byte stream: the read loop crashes iff some message boundary is followed by a readable header and a negative count |
| GpgNet.NegativeCountPanics | internal/protocol/gpgnet.go:61-70 | every accepted header followed by any negative count, whatever comes next, crashes the reader |
| GpgNet.ArgRoundTrip | internal/protocol/gpgnet.go:61-96 | each written argument is read back as its 32-bit two's complement value or its unescaped text, whatever follows |
| GpgNet.OtherTypesAreText | internal/protocol/gpgnet.go:76-93 | every chunk type but zero is read as a text |
| GpgNet.ArgsRoundTrip | internal/protocol/gpgnet.go:160-215 | the same for whole argument lists |
| GpgNet.MessageRoundTrip | internal/protocol/gpgnet.go:218-229 | every acceptable message with at most 10 arguments is read back, leaving what follows |
| GpgNet.TooManyArgsAreRefused | internal/protocol/gpgnet.go:66-70 | a message written with more than 10 arguments is refused by the reader |
| GpgNet.StreamPrefix | internal/protocol/gpgnet.go:99-109 | successfully written messages are read back first, whatever follows them, and the loop then ends as it would on what follows |
| GpgNet.StreamRoundTrip | internal/protocol/gpgnet.go:99-109 | any concatenation of acceptable messages is read back as the same sequence, to the last byte and without a crash |
| JsonFraming.Reader.ReadRaw | internal/protocol/jsonrpc.go:76-107 | from any position of any stream the loop gives the answer the specification allows: shortest balanced segment from the first '{', too large, or end of stream |
| JsonFraming.AnswerIsUnique | internal/protocol/jsonrpc.go:76-107 | the specification allows one answer and one end position |
| JsonFraming.CompleteIsBalanced | internal/protocol/jsonrpc.go:76-107 | a returned message starts with '{' and its braces all close, with its last byte and not before |
| JsonFraming.StreamIsReadBack | internal/protocol/jsonrpc.go:76-107 | balanced messages within the limit, separated by bytes without '{', are read back exactly and in order |
| JsonFraming.ReadingIsDeterministic | internal/protocol/jsonrpc.go:76-107 | no stream can be read in two ways |
| RelayWire.EncodeRelayPacket | internal/protocol/relay_wire.go:32-43 | the packet bytes, or an error exactly for payloads beyond the limit |
| RelayWire.PacketRoundTrip | internal/protocol/relay_wire.go:46-70 | decoding an encoded packet gives sender, destination and payload back |
| RelayWire.HeaderBytes | internal/protocol/relay_wire.go:46-50 | the very bytes of a packet: sender and destination, highest byte first, and the payload |
| RelayWire.WriteTcpFrame | internal/relay/router.go:176-189 | the pooled buffer yields the two-byte length followed by the data |
| RelayWire.Stream.ReadFrame | internal/relay/router.go:192-211 | fills the buffer with the frame the stream begins with and moves behind it, or fails on a bad length or short stream |
| RelayWire.FramesRoundTrip | internal/relay/router.go:176-211 | any sequence of frames of 1..1400 bytes decodes to the same sequence, on either side |
| RelayWire.RelayConnection.SwitchToTcp | internal/adapter/relayconn.go:147-168 | moves to TCP iff the dial succeeds |
| RelayWire.RelayConnection.Send | internal/adapter/relayconn.go:212-245 | puts header and payload on the wire, framed iff on TCP; refuses oversized payloads and sends nothing then; succeeds and counts iff the socket write succeeds |
| RelayWire.RelayConnection.WriteTcpFrame | internal/adapter/relayconn.go:184-192 | sends the length-prefixed content of the send buffer |
| RelayWire.SentIsRead | internal/relay/router.go:192-211 | over either transport the relay reads exactly the packet an adapter sent |
| RelayWire.WrittenIsDispatched | internal/adapter/relayconn.go:554-568 | over either transport an adapter dispatches exactly the packet the relay wrote |
| EndToEnd.EveryAttemptIsUnderstood | internal/adapter/relayconn.go:554-568 | in every run, the adapter every attempt is for dispatches the packet's sender and payload; a hello comes back as a pong |
| EndToEnd.AttemptsFit | internal/relay/router.go:123-141 | in every run, no attempt exceeds the receiver's buffer, or a TCP frame |
| EndToEnd.SameSenderAndPayload | internal/adapter/relayconn.go:212-245 | for every packet an adapter puts on the wire, every run in which the relay reads it and every transport on each side: whatever is attempted for it makes the receiver dispatch the same sender and payload, and only its destination receives it unless it is a broadcast |
| EndToEnd.UnicastArrives | internal/relay/router.go:145-156 | such a packet for one reachable other player is attempted exactly once, to that player, who dispatches the same sender and payload |
| EndToEnd.HelloComesBack | internal/relay/router.go:105-112 | a hello that is routed comes back exactly once, over the transport it came by, and its sender's adapter takes it for a pong |
| PlayerTransport.TargetIsLatestSource | internal/relay/session.go:224-232 | after any history, packets go to the source of the latest accepted packet since the last reset, and nowhere iff there is none |
| PlayerTransport.FirstAddrIsFirstAccepted | internal/relay/session.go:160-187 | the first-address verdict is given exactly to the first accepted packet since the last reset |
| PlayerTransport.FirstAddrOncePerReset | internal/relay/session.go:160-187 | two first-address verdicts have a reset between them |
| PlayerTransport.UdpSourcesShareIp | internal/relay/session.go:160-187 | UDP packets accepted between two resets come from one address |
| PlayerTransport.TcpSourcesShareIp | internal/relay/session.go:258-285 | the same for TCP frames, once a connection with a known address was accepted and while no UDP packet is |
| PlayerTransport.SpoofedIff | internal/relay/session.go:155-169 | a packet is refused as spoofed iff a packet over the same transport, accepted from another IP, still ties it: for UDP until a reset, for TCP until a reset or an accepted UDP packet; ports do not matter |
| PlayerTransport.AcceptedOrWhyNot | internal/relay/session.go:160-187 | every packet of a registered player is accepted unless it is spoofed or limited |
| PlayerTransport.CounterCounts | internal/relay/session.go:51-58 | the counter is the number of checked packets of this second, modulo 2^32, over resets too |
| PlayerTransport.RateLimitIsExact | internal/relay/session.go:167-172 | below 2^32 checks a packet is limited iff it does not come from elsewhere in that sense and at least 2000 non-spoofed packets, UDP and TCP together, came before it in its second |
| PlayerTransport.OneSecondIsBounded | internal/relay/session.go:51-58 | at most 2000 packets are accepted per second and registration |
| PlayerTransport.WindowIsBounded | internal/relay/session.go:51-58 | at most 2000·m in any window touching m seconds |
| SessionTable.CreateKeepsInv | internal/relay/session.go:343-356 | creation keeps index = membership, gauges and limits |
| SessionTable.DeleteKeepsInv | internal/relay/session.go:366-387 | deletion keeps them, although the deleted object keeps its players |
| SessionTable.JoinKeepsInv | internal/relay/session.go:390-423 | joining, rejoining and migrating keep them, also when refused half way |
| SessionTable.LeaveKeepsInv | internal/relay/session.go:426-439 | leaving keeps them |
| SessionTable.DeliverKeepsInv | internal/relay/session.go:160-187 | a packet update under the session lock alone keeps them, also on a deleted object |
| SessionTable.MembershipIsExclusive | internal/relay/session.go:326-332 | no player is in two live sessions |
| SessionTable.GaugesCountMembers | internal/relay/session.go:326-332 | the player gauge is the index size and the sum of all session sizes; the session gauge is the number of sessions |
| SessionTable.JoinOutcome | internal/relay/session.go:390-423 | exactly when each join result occurs; a migration is refused only by a full target, and the player is then registered nowhere |
| SessionRuns.StepMoves | internal/relay/session.go:343-558 | for every operation, who is a member of which session afterwards is told from who was before: exactly the players it should move are moved, and exactly the ids it should create or remove |
| SessionRuns.PlayerStepKeepsInvIff | internal/relay/session.go:535-546 | removing a listed player keeps the table right iff the player is not stale any more or the session object is still live |
| SessionRuns.SessionStepKeepsInvIff | internal/relay/session.go:547-554 | removing a listed session keeps the table right iff it is not expired or its id still names a session without players |
| SessionRuns.RunKeepsInvIff | internal/relay/session.go:343-558 | over any run of all operations, the table is right in every state iff every reaper step was safe where it happened |
| SessionRuns.ReachableInvIff | internal/relay/session.go:334-341 | the same for every run from the empty table |
| SessionRuns.DeletedCandidateBreaksGauge | internal/relay/session.go:373-381 | for any empty session old enough: creating, listing and deleting it before the reaper returns leaves the session gauge at -1 |
| ReaperCycle.ReaperKeepsTable | internal/relay/session.go:507-558 | whatever joins, migrations, leaves, creations and packets come between the reaper's steps, the table stays right if no listed session is deleted meanwhile |
| ReaperCycle.ReaperTakesOnlyStale | internal/relay/session.go:478-504 | at any point of such a cycle the reaper removes only players silent for more than 90 s at that moment, and only sessions empty and more than 120 s old |
| ReaperCycle.NothingDueIsLeft | internal/relay/session.go:533-556 | an uninterrupted second phase that has made its visits leaves no player that was silent for 90 s when the cycle began, and no session older than two minutes then whose players were all so silent |
| Registrations.RecordsMatchHistories | internal/relay/session.go:80-112 | in every run whatsoever, every player record, also in deleted sessions, is the one its own join, reset and packet history leads to |
| Registrations.TargetsFollowHistory | internal/relay/session.go:224-232 | so in every run delivery goes to the source of the latest accepted packet since join or rejoin, and nowhere iff there is none |
| Registrations.ReapedIffSilent | internal/relay/session.go:478-504 | in every run the reaper's second look removes a player iff it is registered there and its latest accepted packet is more than 90 s old or, without one, its session is |
| Registrations.TermsStay | internal/relay/session.go:70-77 | in every run a session object keeps the id, capacity and time of its creation |
| Registrations.WasCreated | internal/relay/session.go:343-356 | in every run every session object was created by one of its events, with the id free and fewer than 15000 sessions |
| Registrations.SessionReapedIff | internal/relay/session.go:547-554 | in every run the reaper finds a session due iff nobody is registered there and it was created more than 120 s ago |
| FailingRuns.ReapedOnJoining | internal/relay/session.go:457-475 | a run in which a player is reaped at the moment it joined, for any session older than 90 s |
| FailingRuns.LostInMigration | internal/relay/session.go:406-418 | a run in which a player that tries to move into a full session ends up in none, for any two sessions and players |
| FailingRuns.OversizedPacketCrashes | internal/relay/router.go:176-189 | a run that ends in the crash of the relay, for any datagram of 1401 to 1500 bytes from one player to another on TCP |
| SessionManager.SessionObject.AddPlayer | internal/relay/session.go:80-97 | adds a fresh record iff the id is new and there is room |
| SessionManager.SessionObject.ResetPlayerTransport | internal/relay/session.go:100-113 | resets the transport fields of a member only |
| SessionManager.SessionObject.RemovePlayer | internal/relay/session.go:116-122 | removes the player and says whether it was there |
| SessionManager.SessionObject.CheckRate | internal/relay/session.go:51-58 | counts in the player's second with 32-bit wrap-around |
| SessionManager.SessionObject.UpdatePlayerAddr | internal/relay/session.go:160-187 | verdict and new record of a UDP packet are those of the transport specification; others unchanged |
| SessionManager.SessionObject.UpdatePlayerTcp | internal/relay/session.go:258-285 | the same for a TCP frame, and the connection it displaces |
| SessionManager.SessionObject.StalePlayers | internal/relay/session.go:457-475 | exactly the stale players, each once |
| SessionManager.SessionObject.RemovePlayerIfStale | internal/relay/session.go:478-504 | removes the player iff it is there and stale now |
| SessionManager.Manager.CreateSession | internal/relay/session.go:343-356 | the manager's maps and gauges become those of the creation step; no session iff it is refused |
| SessionManager.Manager.DeleteSession | internal/relay/session.go:366-387 | the deletion step, with its loop over the members' index entries |
| SessionManager.Manager.AddPlayerToSession | internal/relay/session.go:390-423 | the join step and its result, migration included |
| SessionManager.Manager.RemovePlayerFromSession | internal/relay/session.go:426-439 | the leave step |
| SessionManager.Manager.FindSessionByPlayer | internal/relay/session.go:442-453 | when index and membership agree, the one live session holding the player, or none iff no live session does |
| SessionManager.Manager.ReapScan | internal/relay/session.go:515-526 | with a moving clock: each session at most once, everything due at the start listed, everything listed due by the end |
| SessionManager.Manager.ReapApply | internal/relay/session.go:533-556 | the nested loops perform the listed visits in order, and the returned counts are the changes of the gauges |
| SessionManager.Manager.ReapStaleSessions | internal/relay/session.go:507-558 | a whole uninterrupted cycle keeps index, gauges and limits and leaves nothing that was due when it began |
| Routing.Isolation | internal/relay/router.go:72-169 | in every run, every attempt carries its packet unchanged; its session object admitted the sender at an earlier step, and the destination is a member of it with that target at the lookup; only a hello goes back to its sender |
| Routing.AdmissionHappened | internal/relay/router.go:83-104 | a packet being routed was admitted earlier, with its sender a member then, by the session object that routes it |
| PacketFates.TableIsRun | internal/relay/router.go:83-104 | in every run of the relay its table is a run of the session table, packets included, so what holds of those holds of it |
| PacketFates.ArrivalFate | internal/relay/router.go:72-81 | a packet goes on to be looked up iff it has a header |
| PacketFates.LookupFate | internal/relay/router.go:83-88 | a packet goes to the one live session that holds its sender, and is dropped iff there is none |
| PacketFates.JudgedByHistory | internal/relay/router.go:91-104 | in every run a packet is dropped, refused as spoofed, limited or admitted as its sender's own history of joins, resets and packets in that session object says |
| PacketFates.ReachableByHistory | internal/relay/session.go:211-232 | in every run a packet can be handed to exactly the other players from whom one was accepted since they joined or rejoined, at the source of the latest |
| Routing.SentGrows | internal/relay/router.go:123-169 | steps only add attempts, and only routing steps do |
| Routing.RoutingCrashesIff | internal/relay/router.go:176-189 | routing crashes iff the packet has more than 1400 bytes and one of the members it is to be handed to is on TCP, whatever the order |
| Routing.CrashedIff | internal/relay/router.go:176-189 | in every run, the relay has crashed iff its last step was such a routing |
| RoutingAccounts.RoutedOnce | internal/relay/router.go:105-120 | all that is ever attempted for a packet is what its one routing step attempts |
| RoutingAccounts.HelloIsEchoedOnce | internal/relay/tcphandler.go:163-174 | in every run a routed hello is written back exactly once, unchanged, to where it came from; it fails iff that was TCP and the write failed |
| RoutingAccounts.BroadcastReachesEachOnce | internal/relay/router.go:160-169 | a broadcast is attempted at most once to each other member reachable when it is routed and to nobody else; it is attempted to all of them iff it is not too large for a TCP member among them |
| RoutingAccounts.CountersAddUp | internal/relay/tcphandler.go:119-184 | in every run the four packet counters sum to the weights of the packets handled (one each, the reachable members for a broadcast, none for a failed TCP echo, the attempts made before a crash), and the byte counter to the bytes of successful attempts other than hellos |
| RoutingAccounts.EveryCounterIsExact | internal/relay/router.go:66-169 | in every run each of the four counters equals its own count over packets and attempts: spoofed, rate-limited, echoed or delivered, and dropped for each reason |
| RoutingAccounts.BroadcastWeight | internal/relay/router.go:160-169 | an accepted broadcast weighs the number of other reachable members, or less iff it crashes the relay |
| Router.Router.Transmit | internal/relay/router.go:176-189 | the packet goes on the wire unchanged, through the pooled frame buffer for TCP |
| Router.Router.SendTo | internal/relay/router.go:123-141 | one attempt, counted as routed with its bytes or as dropped; a crash, with nothing sent or counted, iff the packet does not fit a TCP frame |
| Router.Router.SendUnicast | internal/relay/router.go:145-156 | one attempt to a reachable member other than the sender, else one drop; a crash iff it does not fit |
| Router.Router.SendBroadcast | internal/relay/router.go:160-169 | the loop attempts every other reachable member once, in some order, counting each, up to the first it crashes on |
| Router.Router.RoutePacket | internal/relay/router.go:105-120 | hello, broadcast or unicast: the attempts and counters of the routing step |
| Router.Router.HandlePacket | internal/relay/router.go:57-120 | an uninterrupted packet of any readable size leaves table, sends, counters and crash flag exactly as the four steps of the packet machine taken one after another; the counters grow by its weight |
| Router.Router.AdmitPacket | internal/relay/router.go:91-104 | the packet update on the session object is the table's delivery step, verdict included |
| Router.Router.UpdateSender | internal/relay/tcphandler.go:130-160 | a UDP or TCP source is checked against the sender's record as the transport specification says |
| Router.Router.Settle | internal/relay/tcphandler.go:140-184 | each verdict has its outcome, counter and sends |
| HttpLimits.PerIpLimit.Evict | internal/relay/httpapi.go:75-81 | the loop removes exactly the buckets older than the previous second |
| HttpLimits.PerIpLimit.Allow | internal/relay/httpapi.go:71-93 | prunes above 10000 entries, counts the call, answers by the count |
| HttpLimits.GlobalLimit.Allow | internal/relay/httpapi.go:38-48 | counts the call in its second, answers by the count |
| HttpLimits.PruningIsInvisible | internal/relay/httpapi.go:71-93 | with a clock that does not go back, every call is answered as by a limiter that never prunes |
| HttpLimits.AllowedIff | internal/relay/httpapi.go:71-93 | a call is allowed iff fewer than the rate came from its address in its second before it, up to wrap-around at 2^64 |
| HttpLimits.SizeIsBounded | internal/relay/httpapi.go:75-81 | the table holds at most 10001 addresses or only addresses seen in the current and the previous second |
| HttpLimits.RecentAreKept | internal/relay/httpapi.go:75-81 | no address seen in the current or the previous second is ever pruned |
| HttpLimits.NothingPrunedBelow | internal/relay/httpapi.go:75-81 | nothing is pruned while no more than 10000 addresses have called |
| HttpLimits.GlobalIsOneAddress | internal/relay/httpapi.go:38-48 | the global limiter is the per-address one with a single address |
| PeerTable.RunKeepsInv | internal/adapter/peermgr.go:43-217 | in every reachable state: orders pairwise distinct across relay and ICE peers and in 1..nextOrder, sockets pairwise distinct and open, identities never reused, no socket closed twice |
| PeerTable.AdditionOutcome | internal/adapter/peermgr.go:70-87 | a new ICE peer comes last in the order with an open socket nobody else has; a failed addition leaves no peer and no open socket behind |
| PeerTable.RelayAdditionOutcome | internal/adapter/peermgr.go:43-60 | the same for relay peers; where one is registered already nothing changes |
| PeerTable.AddOrReplace | internal/adapter/peermgr.go:70-149 | replacing where nobody is registered is adding, and adding where somebody is changes nothing |
| PeerTable.CloseAllOutcome | internal/adapter/peermgr.go:206-217 | closing all leaves no relay and no ICE peer and closes each socket that a peer owns, once |
| PeerTable.AddressIsFirstOfPort | internal/adapter/icepeer.go:815-829 | the game's address is the source of the first packet since its port last changed, or the one known before if it had that port |
| PeerTable.RemovalOutcome | internal/adapter/peermgr.go:170-181 | a removal takes the player's peers and nobody else's, and closes their own sockets once each |
| PeerTable.ReplacementOutcome | internal/adapter/peermgr.go:95-149 | a replacement keeps socket, order and game address under a new identity and touches no other peer; a failed one closes the socket once and leaves no entry |
| PeerTable.RunKeepsPort | internal/adapter/peermgr.go:95-149 | over any run in which a player stays registered, its port and order never change and its game address is the one learned from all game packets its peers have read |
| PeerTable.StepLeaks | internal/adapter/icepeer.go:1037-1076 | a step leaves behind exactly the sockets that the peers it removes had inherited |
| PeerTable.NothingLeakedIff | internal/adapter/icepeer.go:1069-1075 | over any run, every open socket belongs to a registered peer iff no removed peer was a replacement |
| PeerTable.RemovedReplacementLeaks | internal/adapter/icepeer.go:1069-1075 | adding, replacing and removing a peer leaves its socket open and unowned |
| PeerManager.PeerObject.Close | internal/adapter/icepeer.go:1037-1076 | closes the socket iff the peer owns it |
| PeerManager.PeerObject.ReadGamePacket | internal/adapter/icepeer.go:815-829 | the game address follows the port of the latest packet |
| PeerManager.Manager.GamePacketAt | internal/adapter/icepeer.go:815-829 | a game packet changes the address of that one peer, or nothing in the table if the peer has left it |
| PeerManager.Manager.AddPeer | internal/adapter/peermgr.go:43-60 | the relay peer step: an existing peer is returned, a failure leaves the table alone |
| PeerManager.Manager.NewICEPeer | internal/adapter/icepeer.go:134-297 | binds or inherits a socket; a failure closes only a socket it bound itself |
| PeerManager.Manager.AddICEPeer | internal/adapter/peermgr.go:70-87 | the ICE peer step; other peers untouched |
| PeerManager.Manager.ReplaceICEPeer | internal/adapter/peermgr.go:95-149 | the replacement step on the peer objects, and the invariant |
| PeerManager.Manager.RemovePeer | internal/adapter/peermgr.go:170-181 | the removal step for relay and ICE peer |
| PeerManager.Manager.CloseAll | internal/adapter/peermgr.go:206-217 | in any order of visits, all peers go and each owned socket is closed once |
| RestartRace.SameObjectMeansUntouched | internal/adapter/rpchandler.go:483-499 | finding the same peer object at two moments of a run is equivalent to its having been registered all the time between them |
| RestartRace.RestartGoesOnIff | internal/adapter/rpchandler.go:483-499 | a self-restart goes on to replace the peer iff that peer was registered at its first look and neither replaced nor removed until the second |
| RestartRace.ReplacesOnlyIfUntouched | internal/adapter/rpchandler.go:464-540 | in every run of any number of restarts and other steps, a replacement by a restart of our own is preceded by two such looks; any other was asked for by hand or by the other side |
| RestartRace.PassLeads | internal/adapter/rpchandler.go:457-500 | a callback over the limit ends, one of our own that nobody asked for waits, and one asked for by hand or by the other side goes on to replace the peer at once |
| RestartRace.CarryReplaces | internal/adapter/rpchandler.go:536-540 | a replacement carried out puts a new object in the place of the old one, with its socket |
| RestartRace.CancelledNeverReplaces | internal/adapter/rpchandler.go:485-489 | in every run a restart cancelled while it sleeps never replaces a peer |
| RestartRace.AtMostFiveReplace | internal/adapter/rpchandler.go:428-540 | in every such run, of the callbacks that pass between two resets of the budget at most five ever replace a peer, each at most once |
| RestartBudget.Guard.OnConnected | internal/adapter/rpchandler.go:517-520 | records the connection time and nothing else |
| RestartBudget.Guard.Pass | internal/adapter/rpchandler.go:428-461 | one pass through the protected section: attempt number and duration |
| RestartBudget.Guard.Plan | internal/adapter/rpchandler.go:457-534 | gives up beyond five, waits if self-initiated and not manual, and picks relay-only by the frozen duration |
| RestartBudget.StateIsExplained | internal/adapter/rpchandler.go:428-461 | after any history, the shared state is what the latest connection, the restart after it and later manual restarts say |
| RestartBudget.DurationIsFrozenAge | internal/adapter/rpchandler.go:439-455 | the duration used is the age of the latest connection at the first restart after it; 0 if that was 60 s or more, if a later manual restart cleared it, or before any connection |
| RestartBudget.RelayOnlyIff | internal/adapter/rpchandler.go:522-534 | relay-only is chosen iff the latest connection broke within 45 s and no later manual restart cleared that |
| RestartBudget.RestartsAreNumbered | internal/adapter/rpchandler.go:449-455 | since the last reset, attempt numbers count the restarts 1, 2, 3, ... |
| RestartBudget.AttemptsCountUp | internal/adapter/rpchandler.go:431-455 | the counter starts again exactly at a manual restart or the first restart after a connection of 60 s or more |
| RestartBudget.BackoffDoubles | internal/adapter/rpchandler.go:464-475 | attempt k of the first five waits 2^(k-1) seconds |
| RestartBudget.CountBegins | internal/adapter/rpchandler.go:431-455 | every restart has a point its count begins at: the latest reset not after it, or the beginning |
| RestartBudget.DecisionIsByCount | internal/adapter/rpchandler.go:457-475 | every restart: the sixth and later since the last reset give up; of the first five those of our own that nobody asked for wait 1, 2, 4, 8, 16 s; all others go on at once |
| RestartBudget.BudgetBetweenResets | internal/adapter/rpchandler.go:428-475 | between two resets at most five restarts pass and their waits sum to at most 31 s, for every history |
| LobbyQueue.RunKeepsInv | internal/adapter/gpgnetserver.go:109-268 | under every interleaving of senders with the game loop: at most 100 queued, the ready channel closed at most once per reset, the queue empty once the lobby is ready and flushed, and the two facts below |
| LobbyQueue.EveryMessageHasOneFate | internal/adapter/gpgnetserver.go:235-268 | in every reachable state each submitted message is exactly once in exactly one place: queued, being flushed, held by its sender, attempted, dropped or discarded; flushed messages keep the order of submission |
| LobbyQueue.LossesAreExplained | internal/adapter/gpgnetserver.go:123-253 | a message is dropped iff it comes before the lobby with 100 queued; messages are discarded iff a new connection finds some queued |
| LobbyQueue.NothingQueuedAfterTake | internal/adapter/gpgnetserver.go:212-217 | after the flush has taken the queue it stays empty, whatever is submitted, until a new connection resets it |
| LobbyQueue.NothingSentBeforeLobby | internal/adapter/gpgnetserver.go:234-253 | from a reset until the lobby is ready nothing is flushed and no sender comes to hold a message for direct sending |
| LobbyQueue.GpgNetServer.Enqueue | internal/adapter/gpgnetserver.go:235-253 | the part of a send under the queue lock |
| LobbyQueue.GpgNetServer.SendToGameQueued | internal/adapter/gpgnetserver.go:235-253 | a whole send: queued, dropped or sent at once |
| LobbyQueue.GpgNetServer.ResetForConnection | internal/adapter/gpgnetserver.go:123-129 | a new connection discards the queue and closes the lobby |
| LobbyQueue.GpgNetServer.FlushQueue | internal/adapter/gpgnetserver.go:256-268 | the loop attempts everything queued, in order, and leaves nothing queued |
| LobbyQueue.GpgNetServer.OnLobby | internal/adapter/gpgnetserver.go:212-217 | the lobby becomes ready at most once and the queue is flushed |
| EarlyBuffer.IceToGame | internal/adapter/icepeer.go:615-689 | for every interleaving of game packets and ICE packets: nothing is attempted before data arrives with a known address, then the buffered data first and each later payload, to the address known at that moment |
| EarlyBuffer.AddressStaysKnown | internal/adapter/icepeer.go:815-829 | once the game's address is known to one arrival it is known to all later ones |
| EarlyBuffer.AddressIsLearned | internal/adapter/icepeer.go:815-829 | the address used is the one the peer learns from the game's packets |
| EarlyBuffer.Replay | internal/adapter/icepeer.go:676-685 | the buffered payloads are attempted in order to one address |
| EarlyBuffer.EarlyThenLate | internal/adapter/icepeer.go:650-689 | data before the address is known all precedes data after it |
| EarlyBuffer.NothingLost | internal/adapter/icepeer.go:650-689 | for every interleaving, attempted and still buffered payloads together are all data in arrival order, less the early data beyond the first 64 |

## Left out

- Sockets, dialing, deadlines, TLS, HTTP serving and thread scheduling: whether a bind, an agent, a send or a write succeeds is an input of the step.
- pion/ICE, STUN and TURN, candidate gathering and candidate conversion: library behaviour.
- JSON marshalling and the decoding of RPC parameters: only the byte framing is modelled.
- API keys, id patterns, HTTP status codes and the clamp of max_players: single-branch facts.
- Logging, metrics snapshots, CPU sampling, debug pages, RTT echoes and their clock comparison: display only.
- The restart detection of HandleIceMsg and the answerer's restart delay: restarts arrive as given events.
- Wrap-around of the 64-bit metrics counters and of the 32-bit gauges: they are unbounded here.
- GpgNet.MessageRoundTrip: covers float arguments whose integer part fits 32 bits; Go does not define the conversion of others.
- GpgNet.StreamRoundTrip: covers streams of messages the writer accepts; a rejected one leaves partial bytes in the stream.
- GpgNet.Reader.ReadMessage: requires that the count read is not negative, where the source fails at run time.
- RelayWire.Stream.ReadFrame: does not model a read timeout inside a frame, after which the adapter would resume at a wrong byte.
- RestartRace.ReplacesOnlyIfUntouched: says nothing about the time between the second look and the replacement; the source does not make them atomic.
- RestartBudget.Guard.OnConnected: one step, although the source writes the connection time without the callback's lock.
- LobbyQueue.EveryMessageHasOneFate: says that a send was attempted, not that a game was connected or the write succeeded.
- Closing of TCP connections displaced by a newer one or by the reaper, and aliasing of player records outside the session lock.
- Message order between flushed and directly sent messages: the source gives none.
