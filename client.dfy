/** The Unity client: the packet queue and handshake state machine of
    unity/ServerClientTest/Assets/client2.cs and the id bookkeeping of
    unity/ServerClientTest/Assets/ObjectManager.cs. The two classes call
    each other, so they share one module. Socket calls become a
    `socketUp` flag (does UdpClient.Send succeed) and lists of datagrams
    handed to the socket; the pose of a Unity object is the opaque byte
    string GetPacketData would serialise it to. */
module UnityClient {
  import opened Bytes

  /** The packet AddSendPacket builds: ASCII prefix, 4 bytes of timestamp,
      4 bytes of id (BitConverter, little-endian), then the data. */
  function Packet(prefix: string, timestamp: i32, id: i32, data: seq<byte>): (p: seq<byte>)
    ensures |p| == |prefix| + 8 + |data|
    ensures p[..|prefix|] == Ascii(prefix) && p[|prefix| + 8..] == data
  {
    Ascii(prefix) + GetBytes(timestamp) + GetBytes(id) + data
  }

  /** The receiving side's BitConverter.ToInt32 at the offsets after the
      prefix gives back the timestamp and the id. */
  lemma PacketDecodes(prefix: string, timestamp: i32, id: i32, data: seq<byte>)
    ensures var p := Packet(prefix, timestamp, id, data);
            ToInt32(p, |prefix|) == Some(timestamp) && ToInt32(p, |prefix| + 4) == Some(id)
  {
    var a, t, i := Ascii(prefix), GetBytes(timestamp), GetBytes(id);
    ToInt32GetBytes(a, timestamp, i + data);
    ToInt32GetBytes(a + t, id, data);
    assert a + t + (i + data) == a + t + i + data;
  }

  // ----- ObjectManager.cs -----

  /** ObjectWrapper: the counter sent with its updates and the last pose
      seen (lastPos and lastRot, as serialised bytes). */
  datatype Wrapper = Wrapper(timestamp: i32, pose: seq<byte>)

  /** `new ObjectWrapper(t)`: the field initialiser sets timestamp to 1. */
  function NewWrapper(pose: seq<byte>): (w: Wrapper)
    ensures w.timestamp == 1 && w.pose == pose
  {
    Wrapper(1, pose)
  }

  /** The ObjectManager's state: the next local id and the two
      dictionaries, objects awaiting a relay id and objects that have one. */
  datatype Registry = Registry(localId: i32, local: map<i32, Wrapper>, global: map<i32, Wrapper>)

  /** Every local key was handed out before `localId`. */
  ghost predicate FreshIds(r: Registry)
  {
    forall k | k in r.local :: k < r.localId
  }

  /** AddNewItem's effect: `localId++` first; then Dictionary.Add, which throws
      (second component false) when the key is taken. */
  function AddItem(r: Registry, pose: seq<byte>): (o: (Registry, bool))
    ensures o.0.localId == Inc32(r.localId) && o.0.global == r.global
    ensures o.1 <==> r.localId !in r.local
    ensures o.0.local == if o.1 then r.local[r.localId := NewWrapper(pose)] else r.local
  {
    var id := r.localId;
    var r1 := r.(localId := Inc32(r.localId));
    if id in r.local then (r1, false)
    else (r1.(local := r.local[id := NewWrapper(pose)]), true)
  }

  /** RecieveId's effect: newid from bytes 1-4, oldid from bytes 5-8. None where
      .NET throws: a packet shorter than 9 bytes, oldid not a local key
      (the indexer), or newid already a global key (Add). */
  function AssignId(r: Registry, packet: seq<byte>): (o: Option<Registry>)
    ensures o.Some? ==> o.value.localId == r.localId
  {
    var newid := ToInt32(packet, 1);
    var oldid := ToInt32(packet, 5);
    if newid.None? || oldid.None? then None
    else if oldid.value !in r.local then None
    else if newid.value in r.global then None
    else
      var ow := r.local[oldid.value];
      Some(r.(global := r.global[newid.value := ow], local := r.local - {oldid.value}))
  }

  /** posLength and rotLength of ObjectWrapper: LoadFromPacketData reads
      the serialised position from the first 92 payload bytes and the
      rotation from the next 103. */
  const POS_LENGTH := 92
  const ROT_LENGTH := 103
  const POSE_LENGTH := POS_LENGTH + ROT_LENGTH

  /** RecieveUpdate's effect: timestamp from bytes 1-4, id from bytes 5-8,
      and the pose from the payload that starts at byte 9, loaded into the
      global wrapper with that id. None where .NET throws: a packet shorter
      than 9 bytes, an unknown id, or a payload shorter than the 195 bytes
      LoadFromPacketData cuts out. */
  function LoadUpdate(r: Registry, packet: seq<byte>): (o: Option<Registry>)
    ensures o.Some? ==> o.value.local == r.local && o.value.localId == r.localId
    ensures o.Some? ==> o.value.global.Keys == r.global.Keys
  {
    var timestamp := ToInt32(packet, 1);
    var id := ToInt32(packet, 5);
    if timestamp.None? || id.None? then None
    else if id.value !in r.global then None
    else if |packet| - 9 < POSE_LENGTH then None
    else Some(r.(global := r.global[id.value := Wrapper(timestamp.value, packet[9..9 + POSE_LENGTH])]))
  }

  /** Each key of the dictionary exactly once: an enumeration order. */
  ghost predicate Enumerates(order: seq<i32>, m: map<i32, Wrapper>)
  {
    && (forall i, j | 0 <= i < j < |order| :: order[i] != order[j])
    && (set k | k in order) == m.Keys
  }

  /** The wrappers after an Update pass: each one whose object moved has
      its counter raised by one and its new pose recorded. */
  function Bumped(m: map<i32, Wrapper>, moved: map<i32, seq<byte>>): (b: map<i32, Wrapper>)
    ensures b.Keys == m.Keys
  {
    map k | k in m :: if k in moved then Wrapper(Inc32(m[k].timestamp), moved[k]) else m[k]
  }

  /** Bumped, for the keys enumerated so far. */
  function BumpedOn(m: map<i32, Wrapper>, moved: map<i32, seq<byte>>, done: seq<i32>): (b: map<i32, Wrapper>)
  {
    map k | k in m :: if k in moved && k in done then Wrapper(Inc32(m[k].timestamp), moved[k]) else m[k]
  }

  lemma BumpedOnStep(m0: map<i32, Wrapper>, moved: map<i32, seq<byte>>, done: seq<i32>, key: i32)
    requires key in m0 && key !in done
    ensures BumpedOn(m0, moved, done)[key] == m0[key]
    ensures BumpedOn(m0, moved, done + [key])
              == if key in moved
                 then BumpedOn(m0, moved, done)[key := Wrapper(Inc32(m0[key].timestamp), moved[key])]
                 else BumpedOn(m0, moved, done)
  {
    assert forall k :: k in done + [key] <==> k in done || k == key;
  }

  /** One iteration of the foreach loop of Update, on the specification. */
  lemma BumpStep(m0: map<i32, Wrapper>, moved: map<i32, seq<byte>>, order: seq<i32>, i: nat)
    requires Enumerates(order, m0) && i < |order|
    ensures order[i] in m0 && BumpedOn(m0, moved, order[..i])[order[i]] == m0[order[i]]
    ensures var key := order[i];
            BumpedOn(m0, moved, order[..i + 1])
              == if key in moved
                 then BumpedOn(m0, moved, order[..i])[key := Wrapper(Inc32(m0[key].timestamp), moved[key])]
                 else BumpedOn(m0, moved, order[..i])
    ensures var key := order[i];
            UpdatePackets(m0, order[..i + 1], moved)
              == UpdatePackets(m0, order[..i], moved)
                 + (if key in moved then [Packet("m", Inc32(m0[key].timestamp), key, moved[key])] else [])
  {
    var key := order[i];
    assert order[..i + 1] == order[..i] + [key];
    assert order[..i + 1][..i] == order[..i];
    assert key in order;
    assert key in (set k | k in order);
    assert key !in order[..i];
    BumpedOnStep(m0, moved, order[..i], key);
  }

  lemma BumpedOnAll(m0: map<i32, Wrapper>, moved: map<i32, seq<byte>>, order: seq<i32>)
    requires (set k | k in order) == m0.Keys
    ensures BumpedOn(m0, moved, order) == Bumped(m0, moved)
    ensures BumpedOn(m0, moved, []) == m0
  {
    forall k | k in m0
      ensures k in order
    {
      assert k in (set k | k in order);
    }
  }

  /** The 'm' packets an Update pass queues, in enumeration order. */
  function UpdatePackets(m: map<i32, Wrapper>, order: seq<i32>, moved: map<i32, seq<byte>>): (s: seq<seq<byte>>)
    ensures |s| <= |order|
  {
    if order == [] then []
    else
      var k := order[|order| - 1];
      UpdatePackets(m, order[..|order| - 1], moved)
        + (if k in m && k in moved then [Packet("m", Inc32(m[k].timestamp), k, moved[k])] else [])
  }

  /** The 'i' packets Start queues, one per scene object. */
  function StartPackets(poses: seq<seq<byte>>): (s: seq<seq<byte>>)
    requires |poses| <= INT32_MAX + 1
    ensures |s| == |poses|
  {
    if poses == [] then []
    else StartPackets(poses[..|poses| - 1]) + [Packet("i", 0, |poses| - 1, poses[|poses| - 1])]
  }

  /** The wrappers Start registers for the first `n` scene objects. */
  function SceneWrappers(poses: seq<seq<byte>>, n: nat): (m: map<i32, Wrapper>)
    requires n <= |poses| <= INT32_MAX + 1
    ensures forall i: i32 | 0 <= i < n :: i in m && m[i] == NewWrapper(poses[i])
    ensures forall i | i in m :: 0 <= i < n
  {
    map i: i32 | 0 <= i < n :: NewWrapper(poses[i])
  }

  /** One iteration of the loop of Start, on the specification. */
  lemma StartStep(poses: seq<seq<byte>>, i: nat)
    requires i < |poses| <= INT32_MAX + 1
    ensures SceneWrappers(poses, i + 1) == SceneWrappers(poses, i)[i := NewWrapper(poses[i])]
    ensures StartPackets(poses[..i + 1]) == StartPackets(poses[..i]) + [Packet("i", 0, i, poses[i])]
  {
    assert poses[..i + 1][..i] == poses[..i];
  }

  // ----- client2.cs -----

  /** The fields of client2 that the protocol touches, with the
      ObjectManager's registry. */
  datatype ClientState = ClientState(
    handshakeComplete: bool,
    outgoingPackets: seq<seq<byte>>,
    ticksSinceLastSend: int,
    packetsRecieved: int,
    packetsProcessed: int,
    packetsPrepared: int,
    packetsSent: int,
    registry: Registry)

  /** Send(byteData): a successful send zeroes the idle counter and counts
      the packet; a failed one (the exception is caught) changes nothing. */
  function AfterSend(c: ClientState, socketUp: bool): (c': ClientState)
    ensures socketUp ==> c'.ticksSinceLastSend == 0 && c'.packetsSent == c.packetsSent + 1
    ensures !socketUp ==> c' == c
  {
    if socketUp then c.(ticksSinceLastSend := 0, packetsSent := c.packetsSent + 1) else c
  }

  /** The outcome of handling one received packet: go on, or stop because
      an exception left the loop of Receive. */
  datatype Handled = Continue(state: ClientState, wire: seq<seq<byte>>) | Abort(state: ClientState)

  /** The tag switch of Receive for one non-empty packet. */
  function HandleOne(c: ClientState, packet: seq<byte>, socketUp: bool): (h: Handled)
    requires |packet| >= 1
    ensures h.state.outgoingPackets == c.outgoingPackets
  {
    match packet[0] as char
    case 'b' => Continue(c.(handshakeComplete := true), [])
    case 'd' =>
      Continue(AfterSend(c.(handshakeComplete := false), socketUp), if socketUp then [Ascii("a")] else [])
    case 'k' =>
      (match AssignId(c.registry, packet)
       case None => Abort(c)
       case Some(g) => Continue(c.(registry := g, packetsProcessed := c.packetsProcessed + 1), []))
    case 'n' =>
      var c1 := c.(packetsRecieved := c.packetsRecieved + 1);
      (match LoadUpdate(c1.registry, packet)
       case None => Abort(c1)
       case Some(g) => Continue(c1.(registry := g, packetsProcessed := c1.packetsProcessed + 1), []))
    case _ => Continue(c, [])
  }

  /** State after a call of Receive, the datagrams it left unread, and
      what it sent. */
  datatype Drained = Drained(state: ClientState, rest: seq<seq<byte>>, wire: seq<seq<byte>>)

  function Prepend(w: seq<seq<byte>>, d: Drained): (r: Drained)
  {
    d.(wire := w + d.wire)
  }

  /** Receive: reads the waiting datagrams in order; an empty one ends the
      call (`return`), and so does an exception from the handlers. */
  function ReceiveAll(c: ClientState, inbox: seq<seq<byte>>, socketUp: bool): (d: Drained)
    ensures |d.rest| <= |inbox|
    decreases |inbox|
  {
    if inbox == [] then Drained(c, [], [])
    else if |inbox[0]| < 1 then Drained(c, inbox[1..], [])
    else
      match HandleOne(c, inbox[0], socketUp)
      case Abort(c') => Drained(c', inbox[1..], [])
      case Continue(c', w) => Prepend(w, ReceiveAll(c', inbox[1..], socketUp))
  }

  /** One iteration of the loop of Receive, on the specification: an
      empty datagram ends it; otherwise the handled packet either ends it
      or leaves the rest to be received from the new state. */
  lemma ReceiveStep(goal: Drained, wire: seq<seq<byte>>, c: ClientState, inbox: seq<seq<byte>>, i: nat,
                    socketUp: bool)
    requires i < |inbox| && goal == Prepend(wire, ReceiveAll(c, inbox[i..], socketUp))
    ensures |inbox[i]| < 1 ==> goal == Drained(c, inbox[i + 1..], wire)
  {
    assert inbox[i..][0] == inbox[i] && inbox[i..][1..] == inbox[i + 1..];
  }

  lemma ReceiveAdvance(goal: Drained, wire: seq<seq<byte>>, c: ClientState, inbox: seq<seq<byte>>, i: nat,
                       socketUp: bool, cont: bool, c': ClientState, w: seq<seq<byte>>)
    requires i < |inbox| && |inbox[i]| >= 1 && goal == Prepend(wire, ReceiveAll(c, inbox[i..], socketUp))
    requires HandleOne(c, inbox[i], socketUp) == if cont then Continue(c', w) else Abort(c')
    ensures cont ==> goal == Prepend(wire + w, ReceiveAll(c', inbox[i + 1..], socketUp))
    ensures !cont ==> goal == Drained(c', inbox[i + 1..], wire)
  {
    assert inbox[i..][0] == inbox[i] && inbox[i..][1..] == inbox[i + 1..];
    if cont {
      var tail := ReceiveAll(c', inbox[i + 1..], socketUp);
      assert wire + (w + tail.wire) == (wire + w) + tail.wire;
    }
  }

  /** The drain loop of Update: every queued packet is sent, in order. */
  function Drain(c: ClientState, socketUp: bool): (r: (ClientState, seq<seq<byte>>))
    ensures r.0.outgoingPackets == [] && r.1 == (if socketUp then c.outgoingPackets else [])
    ensures r.0.packetsSent == c.packetsSent + |r.1|
  {
    var n := |c.outgoingPackets|;
    if socketUp then
      (c.(outgoingPackets := [], packetsSent := c.packetsSent + n,
          ticksSinceLastSend := if n > 0 then 0 else c.ticksSinceLastSend),
       c.outgoingPackets)
    else
      (c.(outgoingPackets := []), [])
  }

  /** One Update frame of client2: count the frame, Receive, drain the
      queue, then ping with 'c' if idle for too long. */
  function FrameUpdate(c: ClientState, inbox: seq<seq<byte>>, socketUp: bool,
                       modeManualPing: bool, pingAfterTicks: int): (f: Drained)
    ensures f.state.outgoingPackets == []
  {
    var d := ReceiveAll(c.(ticksSinceLastSend := c.ticksSinceLastSend + 1), inbox, socketUp);
    var (c2, w2) := Drain(d.state, socketUp);
    var ping := c2.ticksSinceLastSend > pingAfterTicks && modeManualPing;
    var c3 := if ping then AfterSend(c2, socketUp) else c2;
    Drained(c3, d.rest, d.wire + w2 + (if ping && socketUp then [Ascii("c")] else []))
  }

  // ----- lemmas -----

  /** A 'j', 'i' or 'm' packet with one-letter tag: byte 0 is the tag,
      byte 1 the timestamp modulo 256 and byte 5 the id modulo 256. */
  lemma PacketBytes(tag: char, timestamp: i32, id: i32, data: seq<byte>)
    requires tag as int < 0x80
    ensures var p := Packet([tag], timestamp, id, data);
            p[0] == Code(tag) && p[1] == timestamp % 0x100 && p[5] == id % 0x100
  {
    GetBytesLow(timestamp);
    GetBytesLow(id);
    assert Packet([tag], timestamp, id, data) == Ascii([tag]) + GetBytes(timestamp) + GetBytes(id) + data;
  }

  /** With every local key below localId and no wrap-around, AddNewItem
      succeeds with key localId, and keys stay below the counter. */
  lemma AddNewItemFresh(r: Registry, pose: seq<byte>)
    requires FreshIds(r) && r.localId < INT32_MAX
    ensures var (r', ok) := AddItem(r, pose);
            && ok && r'.localId == r.localId + 1
            && r'.local == r.local[r.localId := NewWrapper(pose)]
            && FreshIds(r')
  {
  }

  /** The other registry updates keep every local key below localId:
      RecieveId only removes local keys, RecieveUpdate and an Update pass
      keep them, and Start empties the local dictionary. */
  lemma FreshIdsKept(r: Registry, packet: seq<byte>, moved: map<i32, seq<byte>>)
    requires FreshIds(r)
    ensures AssignId(r, packet).Some? ==> FreshIds(AssignId(r, packet).value)
    ensures LoadUpdate(r, packet).Some? ==> FreshIds(LoadUpdate(r, packet).value)
    ensures FreshIds(r.(local := Bumped(r.local, moved)))
    ensures FreshIds(r.(local := map[]))
  {
  }

  /** RecieveId succeeds exactly when the packet holds both ids, oldid is
      local and newid is not yet global; it then moves the wrapper from
      oldid to newid, so the number of wrappers is unchanged. */
  lemma RecieveIdMoves(r: Registry, packet: seq<byte>)
    ensures var o := AssignId(r, packet);
            o.Some? <==> (|packet| >= 9 && ToInt32(packet, 5).value in r.local
                          && ToInt32(packet, 1).value !in r.global)
    ensures var o := AssignId(r, packet);
            o.Some? ==>
              var newid, oldid := ToInt32(packet, 1).value, ToInt32(packet, 5).value;
              && o.value.local == r.local - {oldid}
              && o.value.global == r.global[newid := r.local[oldid]]
              && |o.value.local| + |o.value.global| == |r.local| + |r.global|
  {
    var o := AssignId(r, packet);
    if o.Some? {
      var newid, oldid := ToInt32(packet, 1).value, ToInt32(packet, 5).value;
      assert o.value.local.Keys == r.local.Keys - {oldid};
      assert |o.value.local.Keys| == |r.local.Keys| - 1;
      assert o.value.global.Keys == r.global.Keys + {newid};
      assert |o.value.global.Keys| == |r.global.Keys| + 1;
    }
  }

  /** RecieveUpdate succeeds exactly when the packet carries a header and
      a whole pose and bytes 5-8 name a global wrapper; it then loads the
      timestamp of bytes 1-4 and the 195 pose bytes after the header into
      that wrapper and nothing else. */
  lemma RecieveUpdateLoads(r: Registry, packet: seq<byte>)
    ensures LoadUpdate(r, packet).Some? <==> |packet| >= 9 + POSE_LENGTH && ToInt32(packet, 5).value in r.global
    ensures LoadUpdate(r, packet).Some? ==>
              var id := ToInt32(packet, 5).value;
              && LoadUpdate(r, packet).value.global
                   == r.global[id := Wrapper(ToInt32(packet, 1).value, packet[9..9 + POSE_LENGTH])]
              && LoadUpdate(r, packet).value.local == r.local
  {
  }

  /** 'b' completes the handshake; 'd' undoes it and sends a fresh 'a';
      tags the client does not handle change nothing and send nothing. */
  lemma HandshakeStates(c: ClientState, packet: seq<byte>, socketUp: bool)
    requires |packet| >= 1
    ensures packet[0] == Code('b') ==> HandleOne(c, packet, socketUp) == Continue(c.(handshakeComplete := true), [])
    ensures packet[0] == Code('d') ==>
              var h := HandleOne(c, packet, socketUp);
              && h.Continue? && !h.state.handshakeComplete
              && h.wire == (if socketUp then [Ascii("a")] else [])
    ensures packet[0] !in {Code('b'), Code('d'), Code('k'), Code('n')} ==>
              HandleOne(c, packet, socketUp) == Continue(c, [])
  {
  }

  /** An empty datagram ends Receive, whatever follows it. */
  lemma EmptyPacketStops(c: ClientState, more: seq<seq<byte>>, socketUp: bool)
    ensures ReceiveAll(c, [[]] + more, socketUp) == Drained(c, more, [])
  {
    assert ([[]] + more)[1..] == more;
  }

  /** Receive stops early only at an empty datagram or at a `k` or `n`
      whose handler threw: when no waiting datagram is empty and none is
      tagged `k` or `n`, every one of them is read. */
  lemma {:induction false} ReceiveReadsAll(c: ClientState, inbox: seq<seq<byte>>, socketUp: bool)
    requires forall i | 0 <= i < |inbox| :: |inbox[i]| >= 1 && inbox[i][0] != Code('k') && inbox[i][0] != Code('n')
    ensures ReceiveAll(c, inbox, socketUp).rest == []
    decreases |inbox|
  {
    if inbox != [] {
      var h := HandleOne(c, inbox[0], socketUp);
      assert h.Continue?;
      ReceiveReadsAll(h.state, inbox[1..], socketUp);
    }
  }

  /** The converse: when Receive leaves datagrams unread, the last one it
      read was empty or was a `k` or `n`. */
  lemma {:induction false} ReceiveStopCause(c: ClientState, inbox: seq<seq<byte>>, socketUp: bool)
    ensures var d := ReceiveAll(c, inbox, socketUp);
            d.rest != [] ==>
              && |d.rest| < |inbox|
              && var last := inbox[|inbox| - |d.rest| - 1];
                 |last| == 0 || last[0] == Code('k') || last[0] == Code('n')
    decreases |inbox|
  {
    if inbox != [] && |inbox[0]| >= 1 {
      var h := HandleOne(c, inbox[0], socketUp);
      if h.Continue? {
        ReceiveStopCause(h.state, inbox[1..], socketUp);
        ReceiveConsumesPrefix(h.state, inbox[1..], socketUp);
        var d := ReceiveAll(h.state, inbox[1..], socketUp);
        assert ReceiveAll(c, inbox, socketUp).rest == d.rest;
        if d.rest != [] {
          assert inbox[|inbox| - |d.rest| - 1] == inbox[1..][|inbox[1..]| - |d.rest| - 1];
        }
      }
    }
  }

  /** Receive consumes a prefix of the waiting datagrams, leaves the rest
      unread, and never touches the outgoing queue. */
  lemma {:induction false} ReceiveConsumesPrefix(c: ClientState, inbox: seq<seq<byte>>, socketUp: bool)
    decreases |inbox|
    ensures var d := ReceiveAll(c, inbox, socketUp);
            && |d.rest| <= |inbox|
            && d.rest == inbox[|inbox| - |d.rest|..]
            && d.state.outgoingPackets == c.outgoingPackets
  {
    if inbox != [] && |inbox[0]| >= 1 {
      var h := HandleOne(c, inbox[0], socketUp);
      if h.Continue? {
        ReceiveConsumesPrefix(h.state, inbox[1..], socketUp);
        var d := ReceiveAll(h.state, inbox[1..], socketUp);
        assert ReceiveAll(c, inbox, socketUp) == Prepend(h.wire, d);
        assert inbox[1..][|inbox| - 1 - |d.rest|..] == inbox[|inbox| - |d.rest|..];
      }
    }
  }

  /** After an Update frame the queue is empty and, when the socket works,
      its packets went out in queue order right after what Receive sent;
      a 'c' ping is appended exactly when the idle counter then exceeds
      ping_after_ticks and manual pinging is on; a frame that drained a
      non-empty queue never pings if ping_after_ticks is not negative. */
  lemma UpdateFrame(c: ClientState, inbox: seq<seq<byte>>, socketUp: bool, modeManualPing: bool, pingAfterTicks: int)
    ensures var f := FrameUpdate(c, inbox, socketUp, modeManualPing, pingAfterTicks);
            var d := ReceiveAll(c.(ticksSinceLastSend := c.ticksSinceLastSend + 1), inbox, socketUp);
            var drained := if socketUp then c.outgoingPackets else [];
            var idle := if socketUp && c.outgoingPackets != [] then 0 else d.state.ticksSinceLastSend;
            var ping := idle > pingAfterTicks && modeManualPing;
            && f.state.outgoingPackets == []
            && f.wire == d.wire + drained + (if ping && socketUp then [Ascii("c")] else [])
            && (socketUp && c.outgoingPackets != [] && pingAfterTicks >= 0 ==> f.wire == d.wire + c.outgoingPackets)
  {
    ReceiveConsumesPrefix(c.(ticksSinceLastSend := c.ticksSinceLastSend + 1), inbox, socketUp);
  }

  /** Every 'm' packet an Update pass queues carries a moved wrapper's key
      and its counter after the bump, with its new pose. */
  lemma {:induction false} UpdatePacketsCarryBumped(m: map<i32, Wrapper>, order: seq<i32>, moved: map<i32, seq<byte>>)
    ensures forall p | p in UpdatePackets(m, order, moved) ::
              exists k | k in order && k in m && k in moved ::
                p == Packet("m", Bumped(m, moved)[k].timestamp, k, Bumped(m, moved)[k].pose)
  {
    if order != [] {
      var n := |order| - 1;
      UpdatePacketsCarryBumped(m, order[..n], moved);
      forall p | p in UpdatePackets(m, order, moved)
        ensures exists k | k in order && k in m && k in moved ::
                  p == Packet("m", Bumped(m, moved)[k].timestamp, k, Bumped(m, moved)[k].pose)
      {
        if p in UpdatePackets(m, order[..n], moved) {
          var k :| k in order[..n] && k in m && k in moved
                   && p == Packet("m", Bumped(m, moved)[k].timestamp, k, Bumped(m, moved)[k].pose);
          assert k in order;
        } else {
          assert order[n] in order;
        }
      }
    }
  }

  /** Conversely, every wrapper whose object moved has an 'm' packet
      queued with its counter after the bump and its new pose. */
  lemma {:induction false} UpdatePacketsCoverMoved(m: map<i32, Wrapper>, order: seq<i32>, moved: map<i32, seq<byte>>,
                                                   k: i32)
    requires k in order && k in m && k in moved
    ensures Packet("m", Bumped(m, moved)[k].timestamp, k, Bumped(m, moved)[k].pose) in UpdatePackets(m, order, moved)
  {
    var n := |order| - 1;
    assert order == order[..n] + [order[n]];
    if order[n] != k {
      assert k in order[..n];
      UpdatePacketsCoverMoved(m, order[..n], moved, k);
    }
  }

  /** The enumerated keys whose wrapper moved. */
  ghost function MovedKeys(m: map<i32, Wrapper>, order: seq<i32>, moved: map<i32, seq<byte>>): set<i32>
  {
    set k: i32 | k in order && k in m && k in moved
  }

  lemma MovedKeysStep(m: map<i32, Wrapper>, order: seq<i32>, moved: map<i32, seq<byte>>)
    requires order != [] && order[|order| - 1] !in order[..|order| - 1]
    ensures var x := order[|order| - 1];
            |MovedKeys(m, order, moved)|
              == |MovedKeys(m, order[..|order| - 1], moved)| + (if x in m && x in moved then 1 else 0)
  {
    var n := |order| - 1;
    var init, x := order[..n], order[n];
    var a, b := MovedKeys(m, init, moved), MovedKeys(m, order, moved);
    assert forall k :: k in order <==> k in init || k == x by {
      assert order == init + [x];
    }
    if x in m && x in moved {
      assert b == a + {x};
    } else {
      assert b == a;
    }
  }

  /** Over an enumeration without repeats, an Update pass queues exactly as
      many packets as there are moved wrappers: with the two lemmas above,
      one packet per moved wrapper. */
  lemma {:induction false} UpdatePacketsCount(m: map<i32, Wrapper>, order: seq<i32>, moved: map<i32, seq<byte>>)
    requires forall i, j | 0 <= i < j < |order| :: order[i] != order[j]
    ensures |UpdatePackets(m, order, moved)| == |MovedKeys(m, order, moved)|
  {
    if order != [] {
      var n := |order| - 1;
      var init := order[..n];
      assert order[n] !in init by {
        forall i | 0 <= i < n ensures init[i] != order[n] {
          assert order[i] != order[n];
        }
      }
      UpdatePacketsCount(m, init, moved);
      MovedKeysStep(m, order, moved);
    }
  }

  /** Start's i-th packet is an 'i' with timestamp 0 and id i. */
  lemma {:induction false} StartPacketAt(poses: seq<seq<byte>>, i: nat)
    requires |poses| <= INT32_MAX + 1 && i < |poses|
    ensures StartPackets(poses)[i] == Packet("i", 0, i, poses[i])
  {
    if i < |poses| - 1 {
      StartPacketAt(poses[..|poses| - 1], i);
    }
  }

  // ----- the two classes -----

  class Client {
    const modeManualPing: bool
    const pingAfterTicks: int
    var handshakeComplete: bool
    var outgoingPackets: seq<seq<byte>>
    var ticksSinceLastSend: int
    var packetsRecieved: int
    var packetsProcessed: int
    var packetsPrepared: int
    var packetsSent: int

    /** The client's fields together with the ObjectManager's registry. */
    function View(om: ObjectManager): ClientState
      reads this, om
    {
      ClientState(handshakeComplete, outgoingPackets, ticksSinceLastSend, packetsRecieved,
                  packetsProcessed, packetsPrepared, packetsSent, om.Abs())
    }

    /** The field initialisers; the two modes are inspector settings. */
    constructor (modeManualPing: bool, pingAfterTicks: int)
      ensures this.modeManualPing == modeManualPing && this.pingAfterTicks == pingAfterTicks
      ensures !handshakeComplete && outgoingPackets == [] && ticksSinceLastSend == 0
      ensures packetsRecieved == 0 && packetsProcessed == 0 && packetsPrepared == 0 && packetsSent == 0
    {
      this.modeManualPing := modeManualPing;
      this.pingAfterTicks := pingAfterTicks;
      handshakeComplete := false;
      outgoingPackets := [];
      ticksSinceLastSend := 0;
      packetsRecieved, packetsProcessed, packetsPrepared, packetsSent := 0, 0, 0, 0;
    }

    /** Send(byteData); `wire` is what reached the socket. */
    method Send(byteData: seq<byte>, socketUp: bool) returns (ok: bool, wire: seq<seq<byte>>)
      modifies this`ticksSinceLastSend, this`packetsSent
      ensures ok == socketUp
      ensures wire == if ok then [byteData] else []
      ensures ok ==> ticksSinceLastSend == 0 && packetsSent == old(packetsSent) + 1
      ensures !ok ==> ticksSinceLastSend == old(ticksSinceLastSend) && packetsSent == old(packetsSent)
    {
      if !socketUp {
        return false, [];
      }
      ticksSinceLastSend := 0;
      packetsSent := packetsSent + 1;
      return true, [byteData];
    }

    /** Start(): after Connect, the handshake request. */
    method Start(socketUp: bool) returns (wire: seq<seq<byte>>)
      modifies this`ticksSinceLastSend, this`packetsSent
      ensures wire == if socketUp then [Ascii("a")] else []
      ensures socketUp ==> ticksSinceLastSend == 0 && packetsSent == old(packetsSent) + 1
      ensures !socketUp ==> ticksSinceLastSend == old(ticksSinceLastSend) && packetsSent == old(packetsSent)
    {
      var ok;
      ok, wire := Send(Ascii("a"), socketUp);
    }

    /** Kill(): the disconnect notice. */
    method Kill(socketUp: bool) returns (wire: seq<seq<byte>>)
      modifies this`ticksSinceLastSend, this`packetsSent
      ensures wire == if socketUp then [Ascii("e")] else []
      ensures socketUp ==> ticksSinceLastSend == 0 && packetsSent == old(packetsSent) + 1
      ensures !socketUp ==> ticksSinceLastSend == old(ticksSinceLastSend) && packetsSent == old(packetsSent)
    {
      var ok;
      ok, wire := Send(Ascii("e"), socketUp);
    }

    method AddSendPacket(prefix: string, timestamp: i32, id: i32, data: seq<byte>)
      modifies this`outgoingPackets, this`packetsPrepared
      ensures outgoingPackets == old(outgoingPackets) + [Packet(prefix, timestamp, id, data)]
      ensures packetsPrepared == old(packetsPrepared) + 1
    {
      var list: seq<byte> := [];
      list := list + Ascii(prefix);
      list := list + GetBytes(timestamp);
      list := list + GetBytes(id);
      list := list + data;
      assert list == Packet(prefix, timestamp, id, data);
      outgoingPackets := outgoingPackets + [list];
      packetsPrepared := packetsPrepared + 1;
    }

    method Receive(om: ObjectManager, inbox: seq<seq<byte>>, socketUp: bool)
      returns (rest: seq<seq<byte>>, wire: seq<seq<byte>>)
      requires om.client == this
      modifies this, om
      ensures ReceiveAll(old(View(om)), inbox, socketUp) == Drained(View(om), rest, wire)
    {
      ghost var goal := ReceiveAll(View(om), inbox, socketUp);
      wire := [];
      var i := 0;
      while i < |inbox|
        invariant 0 <= i <= |inbox|
        invariant goal == Prepend(wire, ReceiveAll(View(om), inbox[i..], socketUp))
      {
        var packet := inbox[i];
        ghost var c := View(om);
        ReceiveStep(goal, wire, c, inbox, i, socketUp);
        if |packet| < 1 {
          return inbox[i + 1..], wire;
        }
        var cont, w := HandlePacket(om, packet, socketUp);
        ReceiveAdvance(goal, wire, c, inbox, i, socketUp, cont, View(om), w);
        if !cont {
          return inbox[i + 1..], wire;
        }
        wire := wire + w;
        i := i + 1;
      }
      assert inbox[i..] == [];
      rest := [];
    }

    /** The switch of Receive on one non-empty packet; `cont` is false
        when an exception from the ObjectManager leaves the loop. */
    method HandlePacket(om: ObjectManager, packet: seq<byte>, socketUp: bool)
      returns (cont: bool, wire: seq<seq<byte>>)
      requires om.client == this && |packet| >= 1
      modifies this, om
      ensures HandleOne(old(View(om)), packet, socketUp)
                == if cont then Continue(View(om), wire) else Abort(View(om))
    {
      cont, wire := true, [];
      match packet[0] as char {
        case 'b' =>
          handshakeComplete := true;
        case 'd' =>
          handshakeComplete := false;
          var ok;
          ok, wire := Send(Ascii("a"), socketUp);
        case 'k' =>
          cont := om.RecieveId(packet);
        case 'n' =>
          packetsRecieved := packetsRecieved + 1;
          cont := om.RecieveUpdate(packet);
        case _ =>
      }
    }

    /** The loop of Update that sends every queued packet, oldest first. */
    method Flush(socketUp: bool) returns (wire: seq<seq<byte>>)
      modifies this`outgoingPackets, this`ticksSinceLastSend, this`packetsSent
      ensures outgoingPackets == []
      ensures wire == if socketUp then old(outgoingPackets) else []
      ensures packetsSent == old(packetsSent) + (if socketUp then |old(outgoingPackets)| else 0)
      ensures ticksSinceLastSend
                == if socketUp && old(outgoingPackets) != [] then 0 else old(ticksSinceLastSend)
    {
      wire := [];
      while |outgoingPackets| > 0
        invariant |outgoingPackets| <= |old(outgoingPackets)|
        invariant var k := |old(outgoingPackets)| - |outgoingPackets|;
                  && outgoingPackets == old(outgoingPackets)[k..]
                  && wire == (if socketUp then old(outgoingPackets)[..k] else [])
                  && packetsSent == old(packetsSent) + (if socketUp then k else 0)
                  && ticksSinceLastSend == if socketUp && k > 0 then 0 else old(ticksSinceLastSend)
      {
        var packet := outgoingPackets[0];
        ghost var k := |old(outgoingPackets)| - |outgoingPackets|;
        assert old(outgoingPackets)[..k + 1] == old(outgoingPackets)[..k] + [packet];
        outgoingPackets := outgoingPackets[1..];
        var ok, w := Send(packet, socketUp);
        wire := wire + w;
      }
      assert old(outgoingPackets)[..|old(outgoingPackets)|] == old(outgoingPackets);
    }

    method Update(om: ObjectManager, inbox: seq<seq<byte>>, socketUp: bool)
      returns (rest: seq<seq<byte>>, wire: seq<seq<byte>>)
      requires om.client == this
      modifies this, om
      ensures FrameUpdate(old(View(om)), inbox, socketUp, modeManualPing, pingAfterTicks)
                == Drained(View(om), rest, wire)
    {
      ghost var c0 := View(om);
      ticksSinceLastSend := ticksSinceLastSend + 1;
      assert View(om) == c0.(ticksSinceLastSend := c0.ticksSinceLastSend + 1);
      rest, wire := Receive(om, inbox, socketUp);
      ghost var d := ReceiveAll(c0.(ticksSinceLastSend := c0.ticksSinceLastSend + 1), inbox, socketUp);
      assert d == Drained(View(om), rest, wire);
      var sent := Flush(socketUp);
      assert (View(om), sent) == Drain(d.state, socketUp);
      wire := wire + sent;
      if ticksSinceLastSend > pingAfterTicks && modeManualPing {
        ghost var c2 := View(om);
        var ok, w := Send(Ascii("c"), socketUp);
        assert View(om) == AfterSend(c2, socketUp);
        wire := wire + w;
      }
    }
  }

  class ObjectManager {
    const client: Client
    var localId: i32
    /** objectWrappersWithLocalID: created here, awaiting a relay id. */
    var localWrappers: map<i32, Wrapper>
    /** objectWrappersWithGlobalID: scene objects and objects with a relay id. */
    var globalWrappers: map<i32, Wrapper>

    function Abs(): Registry
      reads this
    {
      Registry(localId, localWrappers, globalWrappers)
    }

    constructor (client: Client)
      ensures this.client == client && Abs() == Registry(0, map[], map[])
    {
      this.client := client;
      localId := 0;
      localWrappers := map[];
      globalWrappers := map[];
    }

    /** Start(): new dictionaries; scene object i is registered under
        global key i and announced with an 'i' packet (timestamp 0, id i). */
    method Start(poses: seq<seq<byte>>)
      requires |poses| <= INT32_MAX + 1
      modifies this, client`outgoingPackets, client`packetsPrepared
      ensures localId == old(localId) && localWrappers == map[]
      ensures globalWrappers == SceneWrappers(poses, |poses|)
      ensures client.outgoingPackets == old(client.outgoingPackets) + StartPackets(poses)
      ensures client.packetsPrepared == old(client.packetsPrepared) + |poses|
    {
      localWrappers := map[];
      globalWrappers := map[];
      ghost var queued: seq<seq<byte>> := [];
      var i := 0;
      while i < |poses|
        invariant 0 <= i <= |poses|
        invariant localId == old(localId) && localWrappers == map[]
        invariant globalWrappers == SceneWrappers(poses, i)
        invariant queued == StartPackets(poses[..i])
        invariant client.outgoingPackets == old(client.outgoingPackets) + queued
        invariant client.packetsPrepared == old(client.packetsPrepared) + i
      {
        var ow := NewWrapper(poses[i]);
        StartStep(poses, i);
        globalWrappers := globalWrappers[i := ow];
        client.AddSendPacket("i", 0, i, ow.pose);
        queued := queued + [Packet("i", 0, i, poses[i])];
        i := i + 1;
      }
      assert poses[..i] == poses;
    }

    /** Update(): the moved wrappers of both dictionaries, each dictionary
        in its enumeration order. */
    method Update(localOrder: seq<i32>, globalOrder: seq<i32>,
                  movedLocal: map<i32, seq<byte>>, movedGlobal: map<i32, seq<byte>>)
      requires Enumerates(localOrder, localWrappers) && Enumerates(globalOrder, globalWrappers)
      modifies this, client`outgoingPackets, client`packetsPrepared
      ensures localId == old(localId)
      ensures localWrappers == Bumped(old(localWrappers), movedLocal)
      ensures globalWrappers == Bumped(old(globalWrappers), movedGlobal)
      ensures client.outgoingPackets == old(client.outgoingPackets)
                + UpdatePackets(old(localWrappers), localOrder, movedLocal)
                + UpdatePackets(old(globalWrappers), globalOrder, movedGlobal)
      ensures client.packetsPrepared == old(client.packetsPrepared)
                + |UpdatePackets(old(localWrappers), localOrder, movedLocal)|
                + |UpdatePackets(old(globalWrappers), globalOrder, movedGlobal)|
    {
      localWrappers := BumpChanged(localWrappers, localOrder, movedLocal);
      globalWrappers := BumpChanged(globalWrappers, globalOrder, movedGlobal);
    }

    /** One foreach loop of Update: `ow.timestamp += 1` and an 'm' packet
        with the raised counter for every wrapper whose object moved. */
    method BumpChanged(m0: map<i32, Wrapper>, order: seq<i32>, moved: map<i32, seq<byte>>)
      returns (m: map<i32, Wrapper>)
      requires Enumerates(order, m0)
      modifies client`outgoingPackets, client`packetsPrepared
      ensures m == Bumped(m0, moved)
      ensures client.outgoingPackets == old(client.outgoingPackets) + UpdatePackets(m0, order, moved)
      ensures client.packetsPrepared == old(client.packetsPrepared) + |UpdatePackets(m0, order, moved)|
    {
      m := m0;
      ghost var queued: seq<seq<byte>> := [];
      var i := 0;
      BumpedOnAll(m0, moved, order);
      assert order[..0] == [];
      while i < |order|
        invariant 0 <= i <= |order|
        invariant m == BumpedOn(m0, moved, order[..i])
        invariant queued == UpdatePackets(m0, order[..i], moved)
        invariant client.outgoingPackets == old(client.outgoingPackets) + queued
        invariant client.packetsPrepared == old(client.packetsPrepared) + |queued|
      {
        var key := order[i];
        BumpStep(m0, moved, order, i);
        ghost var q := if key in moved then [Packet("m", Inc32(m0[key].timestamp), key, moved[key])] else [];
        m := BumpOne(m, key, moved);
        queued := queued + q;
        i := i + 1;
      }
      assert order[..i] == order;
    }

    /** The body of the foreach loop of Update for the wrapper under `key`. */
    method BumpOne(m: map<i32, Wrapper>, key: i32, moved: map<i32, seq<byte>>)
      returns (m': map<i32, Wrapper>)
      requires key in m
      modifies client`outgoingPackets, client`packetsPrepared
      ensures m' == if key in moved then m[key := Wrapper(Inc32(m[key].timestamp), moved[key])] else m
      ensures client.outgoingPackets == old(client.outgoingPackets)
                + if key in moved then [Packet("m", Inc32(m[key].timestamp), key, moved[key])] else []
      ensures client.packetsPrepared == old(client.packetsPrepared) + if key in moved then 1 else 0
    {
      m' := m;
      if key in moved {
        var ow := m[key].(timestamp := Inc32(m[key].timestamp), pose := moved[key]);
        m' := m[key := ow];
        client.AddSendPacket("m", ow.timestamp, key, ow.pose);
      }
    }

    method RecieveUpdate(packet: seq<byte>) returns (ok: bool)
      modifies this, client`packetsProcessed
      ensures ok == LoadUpdate(old(Abs()), packet).Some?
      ensures ok ==> Abs() == LoadUpdate(old(Abs()), packet).value
                     && client.packetsProcessed == old(client.packetsProcessed) + 1
      ensures !ok ==> Abs() == old(Abs()) && client.packetsProcessed == old(client.packetsProcessed)
    {
      var timestamp := ToInt32(packet, 1);
      var id := ToInt32(packet, 5);
      if timestamp.None? || id.None? || id.value !in globalWrappers {
        return false;
      }
      var subPacket := packet[9..];
      var ow := globalWrappers[id.value];
      if |subPacket| < POSE_LENGTH {
        return false;
      }
      var posPart, rotPart := subPacket[..POS_LENGTH], subPacket[POS_LENGTH..POSE_LENGTH];
      assert posPart + rotPart == packet[9..9 + POSE_LENGTH];
      globalWrappers := globalWrappers[id.value := ow.(timestamp := timestamp.value, pose := posPart + rotPart)];
      client.packetsProcessed := client.packetsProcessed + 1;
      ok := true;
    }

    method RecieveId(packet: seq<byte>) returns (ok: bool)
      modifies this, client`packetsProcessed
      ensures ok == AssignId(old(Abs()), packet).Some?
      ensures ok ==> Abs() == AssignId(old(Abs()), packet).value
                     && client.packetsProcessed == old(client.packetsProcessed) + 1
      ensures !ok ==> Abs() == old(Abs()) && client.packetsProcessed == old(client.packetsProcessed)
    {
      var newid := ToInt32(packet, 1);
      var oldid := ToInt32(packet, 5);
      if newid.None? || oldid.None? || oldid.value !in localWrappers || newid.value in globalWrappers {
        return false;
      }
      var ow := localWrappers[oldid.value];
      globalWrappers := globalWrappers[newid.value := ow];
      localWrappers := localWrappers - {oldid.value};
      client.packetsProcessed := client.packetsProcessed + 1;
      ok := true;
    }

    /** AddNewItem(t): `false` where Dictionary.Add throws. */
    method AddNewItem(pose: seq<byte>) returns (ok: bool)
      modifies this, client`outgoingPackets, client`packetsPrepared
      ensures (Abs(), ok) == AddItem(old(Abs()), pose)
      ensures client.outgoingPackets == old(client.outgoingPackets)
                + (if ok then [Packet("j", 0, old(localId), pose)] else [])
      ensures client.packetsPrepared == old(client.packetsPrepared) + (if ok then 1 else 0)
    {
      var id := localId;
      localId := Inc32(localId);
      var ow := NewWrapper(pose);
      if id in localWrappers {
        return false;
      }
      localWrappers := localWrappers[id := ow];
      client.AddSendPacket("j", 0, id, ow.pose);
      ok := true;
    }
  }
}
