# A verified model of the VR object relay

The system is a small multiplayer relay for shared virtual-reality scenes.
A C++ UDP server (`server/`) keeps a world model of numbered objects, each
the last accepted 255-byte update packet for that object, and a table of
peers. A receiving loop handles tagged datagrams:

- `a`: handshake;
- `e`: disconnect;
- `i` and `j`: create a global or a local object;
- `m`: object update.

A sending loop broadcasts every object changed since its last pass to every
peer whose IP address differs from that of the last update's sender (the
port is not compared, so every peer on the sender's host is skipped). It also drops peers whose
counters ran out. A Unity client (`client2.cs`) queues packets, drains them
once per frame and dispatches the replies it receives (`b`, `d`, `k`, `n`).
Its `ObjectManager` keeps two dictionaries of object wrappers: objects
still waiting for a relay id, and objects that have one.

The Dafny project has six modules:

- `Bytes` (bytes.dfy): fixed-width integers, the C++ conversion of an
  unsigned address to `int`, .NET `BitConverter` for 32-bit integers, and
  ASCII encoding.
- `Net` (net.dfy): the relay's endpoint `Address`. It is a datatype because
  the C++ class is copied by value. Each mutator is a function that returns
  the changed copy.
- `WorldModel` (model.dfy): `StateObject` and the world as values
  (`World`), with one specification function per operation of `Model`. The
  class `Model` changes its map, dirty list and `SOID` in place, and each of
  its methods is proved equal to its specification function.
- `Relay` (server.dfy): one received datagram (`Relay.Receive`) and one
  broadcast tick (`Relay.Tick`) as functions on the relay's state. The class
  `Server` runs the receive switch and the two loops of the tick, and is
  proved against those functions.
- `UnityClient` (client.dfy): the client's packet format, the registry of
  wrappers and its three updates, and the receive, drain and ping logic of a
  frame as functions. The classes `Client` and `ObjectManager` hold the
  fields the source mutates, and their methods are proved against those
  functions.
- `Interop` (interop.dfy): what each side reads from the packets the other
  side writes.

Several behaviours are kept as written and exhibited by lemmas:

- `initializeLocal` applies `update` to its local copy after storing it.
- `initializeLocal` is declared `bool`.
- Every default construction of a `StateObject` advances `SOID`.
- `resetTimeout` and `maxTimeout` act on the local copy `sender`, never on
  the stored peer.
- The disconnect sentinel 999999 lies below the threshold 10000000.
- The server's `k` reply does not carry the ids where the client reads them.

Some inputs of the source are indeterminate or come from outside the code.
They are parameters here:

- the untouched bytes of the 256-byte receive buffer (`buffer` beyond
  `bytesRead`);
- the uninitialised reply array (`sendBack`);
- the uninitialised data of a new `StateObject` (`junk`);
- whether a UDP send succeeds (`socketUp`);
- the datagrams waiting at the client (`inbox`);
- a dictionary's enumeration order (`localOrder`, `globalOrder`);
- the objects whose transform changed since the last frame, with their new
  serialised pose (`movedLocal`, `movedGlobal`).

Datagrams a step sends are returned in order (`sent`, `wire`).

## Model

| member | source | states |
|---|---|---|
| Bytes.Signed | server/Server.cpp:108 | the `int` an unsigned address becomes is congruent to it modulo 2^32 |
| Bytes.SignedInjective | server/Server.cpp:165-170 | two addresses give the same `int` exactly when they are equal, so the broadcast's ip comparison is address equality |
| Bytes.Inc32 | unity/ServerClientTest/Assets/ObjectManager.cs:115 | `+= 1` on a C# `int` wraps: the result is one more modulo 2^32 |
| Bytes.GetBytes | unity/ServerClientTest/Assets/client2.cs:151-152 | BitConverter.GetBytes of an `int` is four bytes; GetBytesLow and ToInt32GetBytes state that they are the value's little-endian two's complement bytes |
| Bytes.ToInt32 | unity/ServerClientTest/Assets/ObjectManager.cs:131-132 | BitConverter.ToInt32 yields a value exactly when four bytes start at the index; otherwise it throws (None) |
| Bytes.GetBytesLow | server/Model.h:69-70 | the first byte of an encoded `int` is its value modulo 256, which is all the relay reads of a timestamp or id |
| Bytes.ToInt32GetBytes | unity/ServerClientTest/Assets/ObjectManager.cs:131-132 | decoding four bytes GetBytes wrote, wherever they sit in a packet, gives back the integer |
| Bytes.Ascii | unity/ServerClientTest/Assets/client2.cs:150 | Encoding.ASCII.GetBytes is one byte per character, equal to the character's code for ASCII characters |
| Net.Address.Ne | server/Net.h:58-60 | `!=` holds exactly when address or port differ |
| Net.Address.IncTimeout | server/Net.h:41-43 | the counter grows by one modulo 2^32; address and port, hence equality, unchanged |
| Net.Address.MaxTimeout | server/Net.h:45-47 | the counter becomes 999999; endpoint unchanged |
| Net.Address.ResetTimeout | server/Net.h:49-51 | the counter becomes 0; endpoint unchanged |
| Net.Unbound | server/Net.h:17-21 | the default address is 0, port 0, counter 0 |
| Net.Address.Eq | server/Net.h:54-56 | `==` holds exactly when the two endpoints agree once their counters are ignored |
| Net.Make | server/Net.h:23-27 | a constructed endpoint starts with counter 0 |
| Net.EqIgnoresTimeout | server/Net.h:54-56 | `==` is reflexive and symmetric, blind to the counter and to every mutator, and with equal counters is equality |
| WorldModel.Blank | server/Model.h:25-30 | a default-constructed object takes the current SOID as id, with timestamp, ip and update count 0 and uninitialised data |
| WorldModel.Accepts | server/Model.h:79 | every incoming byte at most four steps ahead of the stored one, modulo 256, is accepted; AcceptsBoundaries gives the refused cases |
| WorldModel.StateObject.Update | server/Model.h:36-44 | update keeps the object's id; CopyUpdate and SendUpdateAcceptance state the copied bytes, timestamp, ip and count |
| WorldModel.AcceptsBoundaries | server/Model.h:79 | the whole wrap band (stored 251 to 255, incoming 0 to 4) is accepted; every other older timestamp is refused; 251 after 250 taken, 5 after 251 refused |
| WorldModel.World.SendUpdate | server/Model.h:68-88 | keys and SOID unchanged, every other object unchanged, the dirty list extended by at most one id |
| WorldModel.SendUpdateUnknownId | server/Model.h:72-75 | an update for an id not in the map changes nothing |
| WorldModel.SendUpdateAcceptance | server/Model.h:79-81 | the object is updated exactly when the rule accepts byte 1; it then holds the packet's 255 bytes, that timestamp and the sender's ip; a refused update changes nothing |
| WorldModel.SendUpdateMarksDirtyOnce | server/Model.h:82-86 | sendUpdate keeps the model consistent and an accepted id is on the dirty list exactly once |
| WorldModel.World.InitializeGlobal | server/Model.h:91-107 | the dirty list is untouched, the key set gains byte 5, every existing object is unchanged; SOID is unchanged for a known id and grows by exactly two for a new one |
| WorldModel.InitializeGlobalIdempotent | server/Model.h:95-97 | once an id exists, any later initializeGlobal for it changes nothing |
| WorldModel.InitializeGlobalCreates | server/Model.h:100-104 | a new global object has its own id, the packet's bytes, timestamp 0, the sender's ip and one update; the model stays consistent |
| WorldModel.World.InitializeLocal | server/Model.h:111-131 | the key set gains the old SOID, every other object is unchanged, the dirty list is kept or gains exactly that id, and SOID grows by one when the id was a key and by two otherwise |
| WorldModel.InitializeLocalAllocates | server/Model.h:115-130 | the model stays consistent, the allocated id is scheduled exactly once, the stored entry is the blank object and the result is only whether the id is non-zero |
| WorldModel.InitializeLocalIgnoresPacket | server/Model.h:120-121 | the packet and the sender of a `j` never reach the model |
| WorldModel.World.ResetIdsToUpdate | server/Model.h:134-139 | the dirty list is emptied, objects and SOID kept |
| WorldModel.ResetKeepsValid | server/Model.h:134-139 | resetting keeps the model consistent and the objects unchanged |
| WorldModel.EmptyWorld | server/Model.h:56-58 | a new model is empty, consistent and starts SOID at 0 |
| WorldModel.RunKeepsValid | server/Model.h:141-144 | any sequence of operations keeps every object stored under its own id and the dirty list duplicate-free and within the map |
| WorldModel.RunSoidMonotone | server/Model.h:16 | SOID never decreases over any sequence of operations |
| WorldModel.LocalIdsIncrease | server/Model.h:115-117 | two initializeLocal calls, whatever happens between them, allocate strictly increasing ids |
| WorldModel.LocalIdCanOverwriteGlobal | server/Model.h:117 | a local allocation can land on an existing global id and replace that object by a blank one |
| WorldModel.Find | server/Model.h:82 | std::find: the first position of the id, or the end when absent |
| WorldModel.CopyUpdate | server/Model.h:36-44 | the copy loop stores the packet's first 255 bytes, the timestamp and the ip, and counts one more update |
| WorldModel.Model.constructor | server/Model.h:56-58 | a new model is the empty world |
| WorldModel.Model.NewStateObject | server/Model.h:25-30 | the default constructor takes SOID and advances it by one |
| WorldModel.Model.SendUpdate | server/Model.h:68-88 | the in-place update equals World.SendUpdate |
| WorldModel.Model.InitializeGlobal | server/Model.h:91-107 | the in-place update equals World.InitializeGlobal, including both constructions |
| WorldModel.Model.InitializeLocal | server/Model.h:111-131 | the in-place update and the `bool` result equal World.InitializeLocal |
| WorldModel.Model.ResetIdsToUpdate | server/Model.h:134-139 | the in-place reset equals World.ResetIdsToUpdate |
| Relay.SendTo | server/Server.cpp:86 | a send goes to the peer's address and port with the given bytes |
| Relay.IndexOf | server/Server.cpp:57-64 | the first stored peer equal to the sender, or the end when none is |
| Relay.Relay.Receive | server/Server.cpp:41-142 | one datagram sends at most one 255-byte reply, only to its sender |
| Relay.EmptyDatagramIgnored | server/Server.cpp:49-50 | a zero-byte receive changes nothing and sends nothing |
| Relay.Handshake | server/Server.cpp:78-88 | `a` from an unknown endpoint appends it with counter 0 and answers a 255-byte `b`; from a known endpoint nothing happens |
| Relay.InitLocalReply | server/Server.cpp:110-124 | `j` runs initializeLocal and answers `k` with byte 1 the `bool` result, byte 4 the packet's byte 4, all other bytes the uninitialised reply array |
| Relay.ModelDelegation | server/Server.cpp:104-132 | `m` and `i` hand the packet and the sender's address to sendUpdate and initializeGlobal and reply nothing |
| Relay.OtherTagsIgnored | server/Server.cpp:89-103 | every other tag, the disconnect `e` included, changes neither peers nor model and sends nothing |
| Relay.ReceiveKeepsStoredPeers | server/Server.cpp:72-74 | a datagram never changes a stored peer (the reset acts on the copy); at most one is appended; uniqueness and the counter bound are kept |
| Relay.ReceiveKeepsWorldValid | server/Server.cpp:77-139 | handling any datagram keeps the model consistent |
| Relay.DisconnectSentinelBelowThreshold | server/Server.cpp:27 | 999999 does not exceed TIMEOUT_TICKS, so a peer holding it survives the next tick with its counter raised |
| Relay.Stamp | server/Server.cpp:172 | the broadcast form has byte 0 set to `n` and the other bytes of the stored packet |
| Relay.Forwarded | server/Server.cpp:166-170 | forwarded ids are in the snapshot and were not last updated from the peer's address; ForwardedMembers gives the converse |
| Relay.ObjectSends | server/Server.cpp:165-175 | object packets go only to the peer being served; ObjectSendsAreForwarded states that they are the stamped forwarded objects in order |
| Relay.PeerSends | server/Server.cpp:158-175 | what a peer receives in a tick is addressed to that peer; EvictedPeer and LivePeer state its content |
| Relay.TickSends | server/Server.cpp:156-179 | every datagram of a tick goes to a stored peer; TickSendsTo splits it into each peer's share |
| Relay.Survivors | server/Server.cpp:177-180 | the new peer table is no longer than the old one; SurvivorsFrom, SurvivorsKeep, SurvivorsConcat and SurvivorsKeepOrder state which peers survive and in what order |
| Relay.Relay.Tick | server/Server.cpp:144-183 | after a tick the dirty list is empty and objects and SOID are unchanged |
| Relay.TickSendsTo | server/Server.cpp:156-179 | with no duplicate peers, what a tick sends to a peer's endpoint is exactly that peer's share |
| Relay.ForwardedMembers | server/Server.cpp:166-170 | an id is forwarded to a peer exactly when it is dirty, in the snapshot and not last updated from that peer's address |
| Relay.ObjectSendsAreForwarded | server/Server.cpp:172-173 | the object packets sent to a peer are the stamped packets of the forwarded ids, in dirty-list order |
| Relay.EvictedPeer | server/Server.cpp:158-163 | a timed-out peer receives exactly one 1-byte `d` and is no longer in the table |
| Relay.LivePeer | server/Server.cpp:165-175 | a live peer receives exactly the forwarded objects as 255-byte `n` packets, in order, and never its own update |
| Relay.SurvivorsFrom | server/Server.cpp:177-178 | every survivor is a peer at or below the threshold with its counter one higher |
| Relay.SurvivorsKeep | server/Server.cpp:177-178 | every peer at or below the threshold survives with its counter one higher |
| Relay.SurvivorsConcat | server/Server.cpp:156-180 | the loop treats peers one by one: the survivors of a joined table are the survivors of each part, in the same order |
| Relay.SurvivorsKeepOrder | server/Server.cpp:177-180 | two live peers appear in the new table in their old relative order |
| Relay.SurvivorsExclude | server/Server.cpp:158-163 | no survivor equals an endpoint that no live peer equals |
| Relay.TickState | server/Server.cpp:177-183 | after a tick: dirty list empty, every live peer kept with its counter raised, any two live peers kept in their relative order, counters bounded, no duplicates if none before |
| Relay.SurvivorsUnique | server/Server.cpp:180 | dropping and ticking peers keeps the table free of duplicates |
| Relay.Server.constructor | server/Server.cpp:33-36 | a new relay has no peers and an empty model |
| Relay.Server.FindPeer | server/Server.cpp:57-64 | the lookup returns IndexOf of the sender |
| Relay.Server.DoReceiving | server/Server.cpp:45-139 | the in-place handling and its sends equal Relay.Receive |
| Relay.Server.DoSending | server/Server.cpp:148-183 | the two loops, the table replacement and the reset equal Relay.Tick, sends in order |
| UnityClient.Packet | unity/ServerClientTest/Assets/client2.cs:149-159 | a packet is the prefix, eight header bytes and the data, in that order |
| UnityClient.PacketDecodes | unity/ServerClientTest/Assets/ObjectManager.cs:131-132 | the receiving side decodes the timestamp and the id the sender wrote |
| UnityClient.PacketBytes | unity/ServerClientTest/Assets/client2.cs:150-158 | byte 0 is the tag, byte 1 the timestamp modulo 256 and byte 5 the id modulo 256 |
| UnityClient.NewWrapper | unity/ServerClientTest/Assets/ObjectManager.cs:14 | a new wrapper's counter is 1 |
| UnityClient.AddItem | unity/ServerClientTest/Assets/ObjectManager.cs:152-157 | localId always advances (wrapping); the add succeeds exactly when the old localId is not a local key, and then stores a new wrapper under it; a failed add leaves the local wrappers unchanged; global wrappers untouched |
| UnityClient.AddNewItemFresh | unity/ServerClientTest/Assets/ObjectManager.cs:153-155 | while keys stay below the counter and it does not wrap, the add succeeds under localId and keys stay below the counter |
| UnityClient.FreshIdsKept | unity/ServerClientTest/Assets/ObjectManager.cs:97-150 | RecieveId, RecieveUpdate, an Update pass and Start all keep every local key below localId |
| UnityClient.AssignId | unity/ServerClientTest/Assets/ObjectManager.cs:139-150 | assigning an id keeps localId; RecieveIdMoves states when it succeeds and what moves |
| UnityClient.RecieveIdMoves | unity/ServerClientTest/Assets/ObjectManager.cs:139-150 | succeeds exactly when both ids decode, oldid is local and newid not global; it moves oldid's wrapper to newid and keeps the number of wrappers |
| UnityClient.RecieveUpdateLoads | unity/ServerClientTest/Assets/ObjectManager.cs:49-63 | succeeds exactly when the packet holds a header and 195 pose bytes and names a global wrapper; that wrapper gets the packet's timestamp and pose, nothing else changes |
| UnityClient.LoadUpdate | unity/ServerClientTest/Assets/ObjectManager.cs:130-137 | loading an update keeps the local wrappers, localId and the global keys; RecieveUpdateLoads states when it succeeds and what is loaded |
| UnityClient.Bumped | unity/ServerClientTest/Assets/ObjectManager.cs:110-128 | an Update pass keeps each dictionary's keys; ObjectManager.Update is proved to produce exactly these wrappers |
| UnityClient.UpdatePackets | unity/ServerClientTest/Assets/ObjectManager.cs:111-127 | an Update pass queues at most one packet per enumerated key; UpdatePacketsCarryBumped, UpdatePacketsCoverMoved and UpdatePacketsCount state which |
| UnityClient.UpdatePacketsCarryBumped | unity/ServerClientTest/Assets/ObjectManager.cs:115-116 | every queued `m` packet carries a moved wrapper's key, its raised counter and its new pose |
| UnityClient.UpdatePacketsCoverMoved | unity/ServerClientTest/Assets/ObjectManager.cs:113-116 | every moved wrapper has an `m` packet queued with its raised counter, its key and its new pose |
| UnityClient.UpdatePacketsCount | unity/ServerClientTest/Assets/ObjectManager.cs:111-127 | over an enumeration without repeats the pass queues exactly as many packets as there are moved wrappers, so one per moved wrapper |
| UnityClient.StartPacketAt | unity/ServerClientTest/Assets/ObjectManager.cs:105 | the i-th packet of Start is an `i` with timestamp 0 and id i |
| UnityClient.SceneWrappers | unity/ServerClientTest/Assets/ObjectManager.cs:101-104 | Start registers scene object i, and only those, under global key i with a new wrapper |
| UnityClient.StartPackets | unity/ServerClientTest/Assets/ObjectManager.cs:101-106 | Start queues one packet per scene object; StartPacketAt gives the i-th one |
| UnityClient.AfterSend | unity/ServerClientTest/Assets/client2.cs:137-147 | a successful send zeroes the idle counter and counts the packet; a failed one changes nothing |
| UnityClient.HandleOne | unity/ServerClientTest/Assets/client2.cs:89-131 | handling a received packet never touches the outgoing queue; HandshakeStates, RecieveIdMoves and RecieveUpdateLoads state each tag's effect |
| UnityClient.ReceiveAll | unity/ServerClientTest/Assets/client2.cs:79-135 | Receive leaves at most the datagrams it was given unread; ReceiveConsumesPrefix, EmptyPacketStops, ReceiveReadsAll and ReceiveStopCause state which |
| UnityClient.Drain | unity/ServerClientTest/Assets/client2.cs:175-177 | the drain loop empties the queue, sends it whole and in order when the socket works and nothing otherwise, and counts what it sent |
| UnityClient.FrameUpdate | unity/ServerClientTest/Assets/client2.cs:169-182 | a frame always ends with an empty queue; UpdateFrame states what it sends |
| UnityClient.HandshakeStates | unity/ServerClientTest/Assets/client2.cs:95-106 | `b` completes the handshake; `d` undoes it and resends `a`; unhandled tags change nothing and send nothing |
| UnityClient.EmptyPacketStops | unity/ServerClientTest/Assets/client2.cs:86-88 | an empty datagram ends Receive and leaves the rest unread |
| UnityClient.ReceiveConsumesPrefix | unity/ServerClientTest/Assets/client2.cs:79-135 | Receive reads a prefix of the waiting datagrams, leaves the rest unread and never touches the outgoing queue |
| UnityClient.ReceiveReadsAll | unity/ServerClientTest/Assets/client2.cs:79-135 | when no waiting datagram is empty or tagged `k` or `n`, Receive reads all of them |
| UnityClient.ReceiveStopCause | unity/ServerClientTest/Assets/client2.cs:86-131 | when Receive leaves datagrams unread, the last one it read was empty or a `k` or `n` (whose handler threw) |
| UnityClient.UpdateFrame | unity/ServerClientTest/Assets/client2.cs:169-182 | after a frame the queue is empty; with a working socket its packets go out in order after Receive's; a `c` ping is appended exactly when the idle counter then exceeds ping_after_ticks with manual ping on; when ping_after_ticks is not negative, a frame that drained a non-empty queue never pings |
| UnityClient.Client.constructor | unity/ServerClientTest/Assets/client2.cs:35-50 | the field initialisers: no handshake, empty queue, zero counters |
| UnityClient.Client.Send | unity/ServerClientTest/Assets/client2.cs:137-147 | reports whether the send succeeded; on success the packet is on the wire, the idle counter is 0 and the count grows; otherwise nothing changes |
| UnityClient.Client.Start | unity/ServerClientTest/Assets/client2.cs:164-167 | start sends the handshake request `a`; on success the idle counter is 0 and the sent count grows by one, on failure both are unchanged |
| UnityClient.Client.Kill | unity/ServerClientTest/Assets/client2.cs:71-77 | kill sends the disconnect notice `e`; on success the idle counter is 0 and the sent count grows by one, on failure both are unchanged |
| UnityClient.Client.AddSendPacket | unity/ServerClientTest/Assets/client2.cs:149-162 | the built packet is appended to the queue and counted |
| UnityClient.Client.Receive | unity/ServerClientTest/Assets/client2.cs:79-135 | the in-place loop, its sends and the unread rest equal ReceiveAll |
| UnityClient.Client.HandlePacket | unity/ServerClientTest/Assets/client2.cs:89-131 | one packet's handling equals HandleOne, including the exits by exception |
| UnityClient.Client.Flush | unity/ServerClientTest/Assets/client2.cs:175-177 | the queue is emptied and, with a working socket, sent in order and counted |
| UnityClient.Client.Update | unity/ServerClientTest/Assets/client2.cs:169-182 | one frame equals FrameUpdate |
| UnityClient.ObjectManager.constructor | unity/ServerClientTest/Assets/ObjectManager.cs:76-79 | localId starts at 0 and no wrapper exists |
| UnityClient.ObjectManager.Start | unity/ServerClientTest/Assets/ObjectManager.cs:82-107 | new dictionaries hold exactly the scene objects under keys 0.. and one `i` packet per object is queued in order |
| UnityClient.ObjectManager.Update | unity/ServerClientTest/Assets/ObjectManager.cs:110-128 | each moved wrapper's counter is raised and its pose recorded; the `m` packets are queued local first, each dictionary in its enumeration order, and each is counted in packetsPrepared |
| UnityClient.ObjectManager.BumpChanged | unity/ServerClientTest/Assets/ObjectManager.cs:111-118 | one foreach loop equals Bumped and queues UpdatePackets |
| UnityClient.ObjectManager.BumpOne | unity/ServerClientTest/Assets/ObjectManager.cs:112-117 | one loop body: a moved wrapper is bumped and its packet queued; otherwise nothing changes |
| UnityClient.ObjectManager.RecieveUpdate | unity/ServerClientTest/Assets/ObjectManager.cs:130-137 | the in-place load equals LoadUpdate and counts the packet; on an exception nothing changes |
| UnityClient.ObjectManager.RecieveId | unity/ServerClientTest/Assets/ObjectManager.cs:139-150 | the in-place move equals AssignId and counts the packet; on an exception nothing changes |
| UnityClient.ObjectManager.AddNewItem | unity/ServerClientTest/Assets/ObjectManager.cs:152-157 | the registry change equals AddItem; a `j` with timestamp 0 and the old localId is queued exactly when the add succeeded |
| Interop.ClientUpdateAtRelay | server/Server.cpp:128-132 | a client `m` makes the relay run sendUpdate on the low bytes of the client's counter and id, replying nothing |
| Interop.SceneObjectAtRelay | unity/ServerClientTest/Assets/ObjectManager.cs:105 | Start's packet for scene object i makes the relay hold an object under i modulo 256 |
| Interop.ClientCountersAccepted | server/Model.h:79 | every client counter step is accepted, across both wraps, and so is the next update after up to four lost ones; after five lost it can be refused (250 then 0) |
| Interop.StaleAcrossWrapAccepted | server/Model.h:79 | an older update just below the wrap replaces a newer one just above it |
| Interop.IdReplyLosesLocalId | server/Server.cpp:115-123 | the `k` reply to a client `j` has byte 4 zero and bytes 5-8 from the uninitialised reply array: the client's local id is lost |
| Interop.IdReplyNeverMatches | unity/ServerClientTest/Assets/ObjectManager.cs:139-150 | in a concrete exchange the client's RecieveId finds no matching local object and the new object never gets its id |
| Interop.BroadcastCarriesHeader | server/Server.cpp:172-173 | the broadcast of an accepted update is an `n` from which the client decodes the sender's full counter and id and loads exactly the sender's pose |

## Left out

- Threads, the two mutexes and the 16.7 ms sleep of the relay are not modelled. Each received datagram and each tick is one atomic step. An update that lands between the tick's snapshot and its reset is therefore not lost here, although the source can lose it.
- The `Socket` class and `main` of the relay are not modelled. A send is a `Datagram` in the step's output. Net.h beyond `Address` is not part of this model.
- Logging (`printf`, `print`), the relay's `packetsSent` and `packetsRecv` counters, and `Model::id` with `modelid` only count or print, so they are left out.
- WorldModel.World: `SOID` and `timesUpdated` are unbounded integers. Their C `int` overflow is not modelled.
- UnityClient.ClientState: `packetsSent`, `packetsRecieved`, `packetsProcessed`, `packetsPrepared` and `ticksSinceLastSend` are unbounded integers. Their C# `int` overflow is not modelled.
- UnityClient.Client.Update: one `socketUp` holds for a whole step, so within a frame every send succeeds or every send fails. A send that fails while a later one in the same frame succeeds is not modelled.
- UnityClient.Registry: a pose is the opaque byte string the BinaryFormatter would produce. Serialisation, the surrogates, and deserialisation failures of a well-sized pose are not modelled. SubArray is not part of this model; it is taken to throw when its range exceeds the array.
- UnityClient.ObjectManager.Update: Unity transforms and `ObjectWrapper.Updated()` are replaced by the `moved` maps. The write of a received pose back into the transform is not modelled.
- UnityClient.ObjectManager.Update: a dictionary's enumeration order is an input listing each key once. It is not computed.
- UnityClient.Wrapper: wrappers are values stored under one key each. A wrapper shared between dictionaries is not possible in the source's flows, and aliasing is not modelled.
- UnityClient.ObjectManager.constructor: before Start the source's dictionaries are null. The model starts with empty ones, so calls made before Start (which throw in the source) are not modelled.
- `Connect` (the UdpClient, the DNS lookup), closing the listener in `Kill`, and exceptions from `listener.Receive` are not modelled. The waiting datagrams are the `inbox` input, and send failure is the `socketUp` input.
- The client's `mode_strict_incoming_IP` and `mode_strict_incoming_PORT` flags and `masterLocalID` are declared but never used by the modelled code.
- UnityClient.ReceiveAll: `rawResponse` holds each received datagram, and `response` holds its ASCII text, which nothing reads (client2.cs:83-84). The model takes each datagram from `inbox` instead and keeps neither field.
- Bytes.GetBytes: BitConverter's byte order is little-endian, as on the hosts the client runs on. A big-endian host is not modelled.
