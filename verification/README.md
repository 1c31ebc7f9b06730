# Game server networking core, modelled in Dafny

This project models the networking core of a small Unity game server. The
server has a fixed table of player slots 1..MaxPlayers. Each slot has a TCP
session and a UDP endpoint.

- **Packet codec** (`Packet`). An append-only byte buffer with a read cursor and a read snapshot. It has typed little-endian writes and reads, and `WriteLength` framing.
- **TCP framing** (`TCP.HandleData` and `TCP.ReceiveCallback`). Pulls `[length][length bytes]` frames out of an accumulation buffer that receives arbitrary chunks. Afterwards the buffer is either cleared or rewound onto the last length prefix.
- **Datagram routing** (`UDPReceiveCallback`). Routes by the slot id at the head of each datagram. The first sender binds the slot's endpoint.
- **Outbound messages** (`ServerSend`). Seven message builders, two unicast paths and the broadcasts, all over slots 1..MaxPlayers.
- **Main-thread queue** (`ThreadManager`). Callbacks enqueue closures and the game tick drains them.
- **Inbound handlers** (`ServerHandle`). The order in which each handler reads its packet.

Effects are recorded as values:

- A socket write or datagram is a `Send`.
- A closure handed to the main thread is a `Deferred` (`Dispatch(slot, body)` or `DestroyPlayer(slot)`).
- A floating-point field is its 4 raw bytes (`Word`).

Modules, in dependency order (one file each):

| file | module | contents |
|---|---|---|
| `wire.dfy` | `Wire` | little-endian two's-complement ints, bools, ASCII text, float words |
| `packets.dfy` | `Packets` | packet ids, the pure reading functions (`IntAt`, `StringAt`, …), class `Packet` |
| `main_thread.dfy` | `MainThread` | class `ThreadManager<A>`, and `Drained`/`Enqueued` describing a drain |
| `framing.dfy` | `Framing` | `ScanFrom`, the pure meaning of `TCP.HandleData`; `Receive`/`Feed` over chunks |
| `sessions.dfy` | `Sessions` | classes `Tcp`, `Udp`, `Client`; `SendUdpData` |
| `outbound.dfy` | `Outbound` | send paths, broadcasts, message layouts and builders |
| `inbound.dfy` | `Inbound` | handler read sequences as functions and as methods on a `Packet` |
| `registry.dfy` | `Registry` | class `Server`: slot table, accept, datagram routing, `Client.Disconnect`, `SendIntoGame`, running the queued closures |

`Client.SendIntoGame`, `Client.Disconnect` and `TCP.ReceiveCallback` reach the
static `Server.Clients` table. They are therefore methods of `Registry.Server`
that take the slot number.

Where the code and its design description disagree, the model follows the code:

- A declared frame length <= 0 only clears the accumulation buffer (`Client.cs:129`, `:145`, `:110`). It does not disconnect the session (`Framing.NonPositiveLengthClears`).
- A full server only logs the refused connection (`Server.cs:53`). It does not close it (`Registry.Server.TcpConnectCallback`: `slot.None? ==> sent == []`, and no slot changes).
- A datagram is routed without looking at the slot's TCP socket (`Server.cs:69-78`; `Registry.RouteOf` takes only the endpoints).
- Framing does not survive arbitrary split points:
  - A first chunk of fewer than 4 bytes is discarded (`Framing.ShortFirstChunkLost`).
  - A declared length of 1 whose byte has not arrived clears the buffer (`Framing.PartialFrameRewinds`).
  - What is proved is that a frame of two or more bytes, whose first chunk holds at least the length prefix, is dispatched exactly once (`Framing.ChunkedFrameDispatchedOnce`).
- An unknown packet id, or a read that fails inside a queued closure, throws on the main thread (`Client.cs:139`). The rest of that drain's copy is skipped (`MainThread.DrainedStopsAtThrow`); it is not a drop local to that packet.
- Only the destruction of the player is deferred on disconnect (`Client.cs:43-47`). Closing the transports and the PlayerDisconnected broadcast run on the calling thread.
- `TCP.Disconnect` on a slot with no socket throws (`Client.cs:153`); it is not idempotent. The model requires a socket.

## Model

| member | source | states |
|---|---|---|
| Wire.ShortRoundTrip | Assets/Scripts/Packet.cs:206-212 | decoding the 2 bytes written for a short gives the same short |
| Wire.IntRoundTrip | Assets/Scripts/Packet.cs:214-220 | decoding the 4 bytes written for an int gives the same int |
| Wire.LongRoundTrip | Assets/Scripts/Packet.cs:222-228 | decoding the 8 bytes written for a long gives the same long |
| Wire.IntEncodingOnto | Assets/Scripts/Packet.cs:214-220 | any 4 bytes are the encoding of the int read from them, so int encoding is a bijection onto 4-byte sequences |
| Wire.EncodeIntInjective | Assets/Scripts/Packet.cs:144-147 | two different ints are never written as the same bytes |
| Wire.AsciiRoundTrip | Assets/Scripts/Packet.cs:164-168 | an ASCII string comes back unchanged through the ASCII encoder and decoder |
| Wire.NonAsciiBecomesQuestionMark | Assets/Scripts/Packet.cs:247-260 | each non-ASCII character comes back as '?'; each ASCII character comes back unchanged |
| Packets.ReadByteAfterWrite | Assets/Scripts/Packet.cs:189-196 | a written byte reads back; the cursor moves 1 when moving and 0 otherwise |
| Packets.ReadShortAfterWrite | Assets/Scripts/Packet.cs:206-212 | a written short reads back; the cursor moves 2 when moving and 0 otherwise |
| Packets.ReadIntAfterWrite | Assets/Scripts/Packet.cs:214-220 | a written int reads back; the cursor moves 4 when moving and 0 otherwise |
| Packets.ReadLongAfterWrite | Assets/Scripts/Packet.cs:222-228 | a written long reads back; the cursor moves 8 when moving and 0 otherwise |
| Packets.ReadFloatAfterWrite | Assets/Scripts/Packet.cs:230-236 | a written float word reads back; the cursor moves 4 when moving and 0 otherwise |
| Packets.ReadBoolAfterWrite | Assets/Scripts/Packet.cs:238-245 | a written bool reads back; the cursor moves 1 when moving and 0 otherwise |
| Packets.ReadStringAfterWrite | Assets/Scripts/Packet.cs:247-260 | a written ASCII string reads back whole; the count is always consumed and the characters only when moving |
| Packets.ReadVector3AfterWrite | Assets/Scripts/Packet.cs:262-265 | a written Vector3 reads back as its three words and consumes 12 bytes |
| Packets.ReadQuaternionAfterWrite | Assets/Scripts/Packet.cs:267-271 | a written Quaternion reads back as its four words and consumes 16 bytes |
| Packets.PeekVector3RepeatsFirstFloat | Assets/Scripts/Packet.cs:262-265 | a non-moving Vector3 read returns the float under the cursor three times and leaves the cursor alone |
| Packets.ReadsFailAtEnd | Assets/Scripts/Packet.cs:189-260 | with no unread byte left, every read throws its own type's error and the cursor does not move |
| Packets.StringPeekConsumesCount | Assets/Scripts/Packet.cs:247-253 | a non-moving string read still moves the cursor past the 4-byte count |
| Packets.EmptyStringSkipsOnlyCount | Assets/Scripts/Packet.cs:247-260 | a moving read of the empty string consumes exactly its count |
| Packets.PacketIdRoundTrip | Assets/Scripts/Packet.cs:41-47 | a packet's bytes start with its id: the first int read from them is the id, and 4 bytes are consumed |
| Packets.FrameDeclaresItsLength | Assets/Scripts/Packet.cs:84-88 | the first int of a framed payload is the number of bytes after it, and those bytes are the payload |
| Packets.Packet.constructor | Assets/Scripts/Packet.cs:35-39 | an empty packet: no bytes, no snapshot, cursor 0 |
| Packets.Packet.WithId | Assets/Scripts/Packet.cs:41-47 | the buffer is exactly the 4-byte id; the cursor is 0 |
| Packets.Packet.FromBytes | Assets/Scripts/Packet.cs:49-55 | the buffer and the read snapshot are both the given bytes; the cursor is 0 |
| Packets.Packet.SetBytes | Assets/Scripts/Packet.cs:78-82 | appends the bytes and re-snapshots the whole buffer; the cursor stays put |
| Packets.Packet.WriteLength | Assets/Scripts/Packet.cs:84-88 | the buffer becomes its old length as 4 bytes, followed by the old bytes unchanged |
| Packets.Packet.InsertInt | Assets/Scripts/Packet.cs:90-93 | the value's 4 bytes go in front of the unchanged old bytes |
| Packets.Packet.ToArray | Assets/Scripts/Packet.cs:95-99 | returns the written bytes, which become the read snapshot |
| Packets.Packet.Length | Assets/Scripts/Packet.cs:101-104 | the number of written bytes |
| Packets.Packet.UnreadLength | Assets/Scripts/Packet.cs:106-109 | always `Length()` minus the cursor |
| Packets.Packet.Reset | Assets/Scripts/Packet.cs:111-123 | true: empty buffer, no snapshot, cursor 0; false: only the cursor moves, back by exactly 4 |
| Packets.Packet.WriteByte | Assets/Scripts/Packet.cs:129-132 | appends one byte; earlier bytes unchanged |
| Packets.Packet.WriteBytes | Assets/Scripts/Packet.cs:134-137 | appends the bytes; earlier bytes unchanged |
| Packets.Packet.WriteShort | Assets/Scripts/Packet.cs:139-142 | appends the 2-byte little-endian encoding; earlier bytes unchanged |
| Packets.Packet.WriteInt | Assets/Scripts/Packet.cs:144-147 | appends the 4-byte little-endian encoding; earlier bytes unchanged |
| Packets.Packet.WriteLong | Assets/Scripts/Packet.cs:149-152 | appends the 8-byte little-endian encoding; earlier bytes unchanged |
| Packets.Packet.WriteFloat | Assets/Scripts/Packet.cs:154-157 | appends the float's 4 bytes; earlier bytes unchanged |
| Packets.Packet.WriteBool | Assets/Scripts/Packet.cs:159-162 | appends one byte, 1 or 0; earlier bytes unchanged |
| Packets.Packet.WriteString | Assets/Scripts/Packet.cs:164-168 | appends the character count as 4 bytes, then one ASCII byte per character (4 + \|s\| bytes) |
| Packets.Packet.WriteVector3 | Assets/Scripts/Packet.cs:170-175 | appends x, y and z, 12 bytes |
| Packets.Packet.WriteQuaternion | Assets/Scripts/Packet.cs:177-183 | appends x, y, z and w, 16 bytes |
| Packets.Packet.ReadByte | Assets/Scripts/Packet.cs:189-196 | result and new cursor are `ByteAt`: guard on the written bytes, then a range check on the snapshot |
| Packets.Packet.ReadBytes | Assets/Scripts/Packet.cs:198-205 | result and new cursor are `BytesAt`, which copies from the written bytes, not the snapshot |
| Packets.Packet.ReadShort | Assets/Scripts/Packet.cs:206-212 | result and new cursor are `ShortAt` |
| Packets.Packet.ReadInt | Assets/Scripts/Packet.cs:214-220 | result and new cursor are `IntAt` |
| Packets.Packet.ReadLong | Assets/Scripts/Packet.cs:222-228 | result and new cursor are `LongAt` |
| Packets.Packet.ReadFloat | Assets/Scripts/Packet.cs:230-236 | result and new cursor are `FloatAt` |
| Packets.Packet.ReadBool | Assets/Scripts/Packet.cs:238-245 | result and new cursor are `BoolAt`; any non-zero byte is true |
| Packets.Packet.ReadString | Assets/Scripts/Packet.cs:247-260 | result and new cursor are `StringAt`: a moving count read, then the characters |
| Packets.Packet.ReadVector3 | Assets/Scripts/Packet.cs:262-265 | result and new cursor are `Vector3At`: three float reads, stopping at the first that throws |
| Packets.Packet.ReadQuaternion | Assets/Scripts/Packet.cs:267-271 | result and new cursor are `QuaternionAt`: four float reads, stopping at the first that throws |
| MainThread.DrainedRunsAll | Assets/Scripts/ThreadManager.cs:34-47 | if no action throws, the drain runs every action of the copy once, in enqueue order |
| MainThread.DrainedStopsAtThrow | Assets/Scripts/ThreadManager.cs:34-47 | the drain runs the copy up to and including the first action that throws, and nothing after it |
| MainThread.ThreadManager.constructor | Assets/Scripts/ThreadManager.cs:10-12 | both lists empty, flag down |
| MainThread.ThreadManager.ExecuteOnMainThread | Assets/Scripts/ThreadManager.cs:19-32 | a null action changes nothing; any other action is appended at the end of the pending list and raises the flag |
| MainThread.ThreadManager.UpdateMain | Assets/Scripts/ThreadManager.cs:34-47 | flag down: nothing changes. Otherwise the copy is the old pending list, the actions run are `Drained` of it, and pending then holds exactly what they enqueued, for the next drain. The flag is raised exactly when something is pending |
| MainThread.ThreadManager.Run | Assets/Scripts/ThreadManager.cs:45-46 | running one action appends what it enqueues to the pending list, in order |
| Framing.ScanComplete | Assets/Scripts/Client.cs:126-146 | every complete frame at the front of the unread bytes is dispatched, once, in arrival order, before anything else |
| Framing.ScanSound | Assets/Scripts/Client.cs:126-146 | everything dispatched was present as complete frames back to back from the cursor; a rewind ends just past the next length prefix |
| Framing.ScanDispatchesPresentFrames | Assets/Scripts/Client.cs:132-140 | the dispatched frames, re-framed, are exactly a prefix of the unread bytes |
| Framing.RewindPointsAtPrefix | Assets/Scripts/Client.cs:148 | a `false` result leaves the cursor just past a length prefix that declares more than 1 byte and more bytes than remain; the rewind by 4 lands on it |
| Framing.ShortTailDropped | Assets/Scripts/Client.cs:143-148 | complete frames followed by 0-3 bytes: all frames dispatched, result true, the tail dropped |
| Framing.NonPositiveLengthClears | Assets/Scripts/Client.cs:126-145 | a declared length <= 0 after some frames: exactly those frames are dispatched and the result is true |
| Framing.PartialFrameRewinds | Assets/Scripts/Client.cs:132-148 | a frame whose body is incomplete: the frames before it are dispatched and the cursor is just past its prefix; result false, except true for a declared length of 1 |
| Framing.CoalescedFramesAllDispatched | Assets/Scripts/Client.cs:107-110 | several complete frames in one chunk, on an empty buffer, are all dispatched in order and the buffer ends empty |
| Framing.ShortFirstChunkLost | Assets/Scripts/Client.cs:120-149 | a chunk of fewer than 4 bytes on an empty buffer dispatches nothing and is discarded |
| Framing.IncompleteFrameKept | Assets/Scripts/Client.cs:107-110 | a frame with its whole prefix but only part of its body is kept, with the cursor back on its prefix |
| Framing.KeptFrameCompletes | Assets/Scripts/Client.cs:96-118 | the rest of a kept frame, in any number of non-empty chunks, dispatches that frame exactly once when its last byte arrives, and the buffer ends empty |
| Framing.ChunkedFrameDispatchedOnce | Assets/Scripts/Client.cs:96-149 | a frame of two or more bytes, split into non-empty chunks whose first holds the prefix, is dispatched exactly once and the buffer ends empty |
| Sessions.QueueFrame | Assets/Scripts/Client.cs:134-140 | reads the body of the frame whose prefix was just read and queues its dispatch; the scan has then consumed exactly that frame |
| Sessions.SendUdpData | Assets/Scripts/Server.cs:86-97 | no datagram for a null endpoint; otherwise one datagram of the packet's bytes to it |
| Sessions.Tcp.constructor | Assets/Scripts/Client.cs:63-66 | no socket, no accumulation buffer |
| Sessions.Tcp.Connect | Assets/Scripts/Client.cs:68-82 | the slot holds the connection and a fresh, empty accumulation buffer |
| Sessions.Tcp.SendData | Assets/Scripts/Client.cs:84-94 | nothing without a socket; otherwise one write of the packet's bytes |
| Sessions.Tcp.HandleData | Assets/Scripts/Client.cs:120-149 | after appending the chunk, the frames dispatched, in order, the cursor and the result are exactly those of `ScanFrom` from the old cursor |
| Sessions.Tcp.ReceiveChunk | Assets/Scripts/Client.cs:107-110 | the buffer and the dispatches after `HandleData` then `Reset` are one step of `Receive` |
| Sessions.Tcp.Disconnect | Assets/Scripts/Client.cs:151-158 | no socket and no accumulation buffer afterwards |
| Sessions.DatagramBodyOfFrame | Assets/Scripts/Client.cs:182-185 | a datagram `[slot][length][body]…` yields exactly the body, whatever follows, with the cursor right after it |
| Sessions.EmptyFinalDatagramBodyFails | Assets/Scripts/Client.cs:184-185 | a zero length at the very end of a datagram is a read failure, not an empty body |
| Sessions.NegativeDatagramLengthFails | Assets/Scripts/Client.cs:184-185 | a negative declared length is a read failure |
| Sessions.Udp.constructor | Assets/Scripts/Client.cs:167-170 | no endpoint |
| Sessions.Udp.Connect | Assets/Scripts/Client.cs:172-175 | the endpoint is the given one |
| Sessions.Udp.SendData | Assets/Scripts/Client.cs:177-180 | nothing before a bind; otherwise one datagram of the packet's bytes to the endpoint |
| Sessions.Udp.HandleData | Assets/Scripts/Client.cs:182-193 | reads exactly `DatagramBodyAt`; a body read whole is queued as one dispatch for the slot, a failed read queues nothing |
| Sessions.Udp.Disconnect | Assets/Scripts/Client.cs:195-198 | no endpoint afterwards |
| Sessions.Client.constructor | Assets/Scripts/Client.cs:20-25 | fresh TCP and UDP sides carrying the slot's id, unbound, and no player |
| Outbound.RecipientsExactly | Assets/Scripts/ServerSend.cs:24-29 | a broadcast visits exactly the slots 1..MaxPlayers other than the excepted one |
| Outbound.RecipientsAscending | Assets/Scripts/ServerSend.cs:18-22 | a broadcast visits slots in strictly ascending order, so each at most once |
| Outbound.StreamSendsReach | Assets/Scripts/ServerSend.cs:18-29 | a TCP fan-out writes the same bytes to a connection iff some visited slot holds it |
| Outbound.DatagramSendsReach | Assets/Scripts/ServerSend.cs:31-42 | a UDP fan-out sends the same bytes to an endpoint iff some visited slot is bound to it |
| Outbound.SendTcpData | Assets/Scripts/ServerSend.cs:6-10 | frames the packet once, then writes it to that slot's connection only, if it has one |
| Outbound.SendUdpDataTo | Assets/Scripts/ServerSend.cs:12-16 | frames the packet once, then sends it to that slot's endpoint only, if bound |
| Outbound.SendTcpDataToAll | Assets/Scripts/ServerSend.cs:18-29 | frames the packet once, then writes it to every visited slot with a socket, in slot order |
| Outbound.StreamToAll | Assets/Scripts/ServerSend.cs:21 | the loop's writes are `StreamSends` over the visited slots |
| Outbound.SendUdpDataToAll | Assets/Scripts/ServerSend.cs:31-42 | frames the packet once, then sends it to every visited bound slot, in slot order |
| Outbound.DatagramToAll | Assets/Scripts/ServerSend.cs:34 | the loop's datagrams are `DatagramSends` over the visited slots |
| Outbound.WelcomeReadsBack | Assets/Scripts/ServerSend.cs:46-54 | a Welcome body reads back as id 1, then the text, then the client's id, with nothing left over |
| Outbound.SpawnPlayerReadsBack | Assets/Scripts/ServerSend.cs:56-67 | a SpawnPlayer body reads back as id 2, player id, name, position, rotation, with nothing left over |
| Outbound.IdMessageReadsBack | Assets/Scripts/ServerSend.cs:89-96 | a PlayerDisconnected or PlayerRespawned body reads back as its packet id, then the player id, 8 bytes |
| Outbound.PlayerPositionReadsBack | Assets/Scripts/ServerSend.cs:69-77 | a PlayerPosition body reads back as packet id 3, the player id and the position, ending exactly at its 20th byte |
| Outbound.PlayerRotationReadsBack | Assets/Scripts/ServerSend.cs:79-87 | a PlayerRotation body reads back as packet id 4, the player id and the rotation, ending exactly at its 24th byte |
| Outbound.PlayerHealthReadsBack | Assets/Scripts/ServerSend.cs:98-106 | a PlayerHealth body reads back as packet id 6, the player id and the health's four bytes, ending exactly at its 12th byte |
| Outbound.Welcome | Assets/Scripts/ServerSend.cs:46-54 | one framed `[1][msg][toClient]` write, to the addressed client only |
| Outbound.SpawnPlayer | Assets/Scripts/ServerSend.cs:56-67 | one framed `[2][id][username][position][rotation]` write, to one client |
| Outbound.PlayerPosition | Assets/Scripts/ServerSend.cs:69-77 | framed `[3][id][position]` by UDP to every bound slot, the player's own included |
| Outbound.PlayerRotation | Assets/Scripts/ServerSend.cs:79-87 | framed `[4][id][rotation]` by UDP to every bound slot but the player's own |
| Outbound.PlayerDisconnected | Assets/Scripts/ServerSend.cs:89-96 | framed `[5][playerId]` by TCP to every connected slot |
| Outbound.PlayerHealth | Assets/Scripts/ServerSend.cs:98-106 | framed `[6][id][health]` by TCP to every connected slot |
| Outbound.PlayerRespawned | Assets/Scripts/ServerSend.cs:108-115 | framed `[7][id]` by TCP to every connected slot |
| Inbound.ReadWelcomeReceived | Assets/Scripts/ServerHandle.cs:10-11 | reads one int and then one string, stopping at the first that throws; the cursor ends where `WelcomeReceivedAt` says |
| Inbound.ReadPlayerMovement | Assets/Scripts/ServerHandle.cs:20-22 | reads a count, throws on a negative one, then count bools and a quaternion, as `PlayerMovementAt` says |
| Inbound.ReadInputs | Assets/Scripts/ServerHandle.cs:20-21 | fills a `bool[n]` by n bool reads in order, stopping at the first that throws |
| Inbound.ReadPlayerShoot | Assets/Scripts/ServerHandle.cs:29 | reads one Vector3, as `PlayerShootAt` says |
| Inbound.BoolsAtAdvance | Assets/Scripts/ServerHandle.cs:21 | n successful bool reads return n values and consume n bytes |
| Inbound.BoolsAtStops | Assets/Scripts/ServerHandle.cs:21 | once a bool read throws, the outcome is fixed |
| Inbound.BoolsAtEncoding | Assets/Scripts/ServerHandle.cs:21 | bools written one byte each read back as the same bools |
| Inbound.PlayerMovementConsumes | Assets/Scripts/ServerHandle.cs:20-22 | a decoded movement with n inputs consumed exactly 4 + n + 16 bytes |
| Inbound.PlayerShootConsumes | Assets/Scripts/ServerHandle.cs:29 | a decoded shot consumed exactly 12 bytes |
| Inbound.PlayerMovementRoundTrip | Assets/Scripts/ServerHandle.cs:20-22 | what a client writes for a movement decodes to the same inputs and rotation, whatever follows |
| Inbound.WelcomeReceivedRoundTrip | Assets/Scripts/ServerHandle.cs:10-11 | what a client writes for a welcome reply decodes to the same id and ASCII name, wherever it starts |
| Inbound.NegativeCountThrows | Assets/Scripts/ServerHandle.cs:20 | a negative input count throws after consuming only the count |
| Registry.FreeFromLowest | Assets/Scripts/Server.cs:46-51 | the scan yields the lowest slot with no socket, and nothing exactly when every slot has one |
| Registry.ReadSlotId | Assets/Scripts/Server.cs:66-67 | the slot id is the first 4 bytes of the datagram, and 4 bytes are consumed |
| Registry.FirstBindWins | Assets/Scripts/Server.cs:71-78 | after a bind, later datagrams for the slot from anyone else are dropped and the binder's are delivered |
| Registry.DeliveredOnlyFromEndpoint | Assets/Scripts/Server.cs:77-78 | a delivered datagram came from the endpoint bound to the slot it names |
| Registry.SeatedExactly | Assets/Scripts/Client.cs:35 | the seated slots are exactly those 1..MaxPlayers with a player |
| Registry.ExistingSpawnsReach | Assets/Scripts/Client.cs:32-33 | the new client receives the SpawnPlayer of every other seated player, and nothing else from that loop |
| Registry.NewSpawnReaches | Assets/Scripts/Client.cs:35-36 | every connected seated slot, the new player's own included, receives the new player's SpawnPlayer |
| Registry.UnboundNotReached | Assets/Scripts/Client.cs:49-52 | a TCP fan-out never writes to a connection no slot holds |
| Registry.BroadcastReachesConnected | Assets/Scripts/ServerSend.cs:18-22 | a TCP broadcast to all slots reaches every connected slot |
| Registry.ReadCall | Assets/Scripts/Client.cs:135-140 | the queued closure's reads are `Decode`: the packet id, then the reads of the handler it selects |
| Registry.DecodeWelcomeReceived | Assets/Scripts/ServerHandle.cs:8-11 | a client's welcome reply selects WelcomeReceived and decodes to the claimed id and name, whatever id is claimed |
| Registry.DecodeUnknownPacket | Assets/Scripts/Client.cs:139 | an id outside {1, 2, 3} selects no handler |
| Registry.Server.constructor | Assets/Scripts/Server.cs:99-110 | exactly the slots 1..MaxPlayers, all unbound and without a player; handler keys exactly {1, 2, 3}; empty queue |
| Registry.Server.FreeSlot | Assets/Scripts/Server.cs:46-51 | the loop finds `FreeFrom`: the lowest slot with no socket |
| Registry.Server.Bind | Assets/Scripts/Client.cs:68-77 | the free slot takes the connection and a new empty buffer; no other slot changes |
| Registry.Server.TcpConnectCallback | Assets/Scripts/Server.cs:40-54 | the lowest free slot takes the connection and is sent one Welcome; a full server changes no slot and sends nothing |
| Registry.Server.HandleChunk | Assets/Scripts/Client.cs:107-110 | the slot's buffer and the queued dispatches take one `Receive` step; the server invariant is kept |
| Registry.Server.Disconnect | Assets/Scripts/Client.cs:39-53 | queues the player's destruction, frees both transports, then broadcasts PlayerDisconnected: every still-connected slot gets it and the closed connection does not |
| Registry.Server.Close | Assets/Scripts/Client.cs:49-50 | both transports of the slot are unbound, no other slot changes, and no slot holds the old connection |
| Registry.Server.ReceiveCallback | Assets/Scripts/Client.cs:96-118 | a zero-byte read disconnects and stops reading; any other read is one `Receive` step and reading goes on |
| Registry.Server.UdpReceiveCallback | Assets/Scripts/Server.cs:56-84 | routes as `RouteOf`: only a first datagram binds, and only a delivered readable body queues a dispatch; short, slot-0, unknown-slot and spoofed datagrams change nothing |
| Registry.Server.SendIntoGame | Assets/Scripts/Client.cs:27-37 | the slot gets a full-health player under the sending slot's id; the sends are the existing spawns to it, then its spawn to every seated slot |
| Registry.Server.SpawnExisting | Assets/Scripts/Client.cs:32-33 | the first loop's sends are `ExistingSpawns` |
| Registry.Server.SpawnNew | Assets/Scripts/Client.cs:35-36 | the second loop's sends are `StreamSends` over the seated slots |
| Registry.Server.RunDestroyPlayer | Assets/Scripts/Client.cs:43-47 | throws exactly when the slot has no player; the slot has none afterwards |
| Registry.Server.RunDispatch | Assets/Scripts/ServerHandle.cs:8-32 | undecodable bodies throw and change nothing. A welcome enters the game under the sending slot whatever id it claims, and throws only without a socket. A movement or shot throws exactly when the slot has no player |

## Left out

- The player object (`Player.cs`) is not modelled beyond the fields the protocol reads (`PlayerView`):
  - movement, gravity, shooting, damage and the respawn coroutine;
  - `SetInput` and `Shoot` have no modelled effect;
  - the spawn position and rotation are parameters of `Registry.Server.RunDispatch`.
- Registry.Server.SendIntoGame: `Player.Initialize` (`Player.cs:42-49`) is reduced to id, name and full health. The scene's `InstantiatePlayer` is a parameter.
- Registry.Server.SendIntoGame: enumerating `Server.Clients.Values` is taken to visit slots in ascending order, the insertion order of the table.
- Sockets, streams and listeners are not modelled: `Server.Start`/`Stop`, `BeginAcceptTcpClient`, `BeginRead` re-arming, the 4096-byte receive buffer, and the send completions. A chunk may be any non-empty byte sequence, and sends are recorded values.
- Registry.Server.ReceiveCallback: the `catch` path, where an exception from `EndRead` or framing disconnects the slot, is not modelled. Only the zero-byte read and the normal path are.
- Sessions.Tcp.SendData and Sessions.SendUdpData: send exceptions caught and logged are not modelled. The send is recorded as made.
- Sessions.Tcp.Connect: the Welcome send at the end of `TCP.Connect` is made by `Registry.Server.TcpConnectCallback`, right after `Registry.Server.Bind`. `Sessions` cannot reach the slot table.
- MainThread.ThreadManager.UpdateMain: each action's effect on the queue is given by the `effects` parameter. It is not composed with `Registry.Server.RunDispatch` and `RunDestroyPlayer`, which model what the two kinds of closure do.
- The lock in `ThreadManager` and all concurrency are not modelled. The model is the sequential meaning of the two lists and the flag.
- Floating-point values are 4-byte words; no IEEE conversion.
- Text is a Dafny string, whose `char`s are Unicode scalar values, not .NET's UTF-16 units. The 4-byte count written before a string therefore agrees with .NET's `value.Length` only for characters below U+10000; a character above it counts 1 here and 2 in .NET. Lone surrogates cannot be represented at all. The server writes only the constant Welcome text and names it has read back, and both are ASCII. Non-ASCII characters become '?' as with the ASCII encoder. A character count over .NET's maximum string length is a string read failure.
- The two overloads of each broadcast are one method with an optional excepted slot.
- `Dispose`, `using` and the debug log lines are not modelled, with two exceptions. The log line at `ServerHandle.cs:13` dereferences the slot's socket, and it is kept as a throw in `Registry.Server.RunDispatch`. The log line at `Client.cs:41` does the same; like `Client.cs:153`, it becomes the `requires` of `Registry.Server.Disconnect` that the slot has a socket. Its only caller, `Registry.Server.ReceiveCallback`, always has one.
