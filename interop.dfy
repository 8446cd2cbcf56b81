/** The two ends of the wire together: what the relay of server/Server.cpp
    reads from the packets the Unity client builds, and what the client
    reads back from the packets the relay sends. */
module Interop {
  import opened Bytes
  import opened WorldModel
  import opened Relay
  import opened UnityClient

  /** A datagram received into the relay's 256-byte buffer: recvfrom
      fills the first bytes (a longer datagram is cut at 256) and leaves
      the rest of the buffer as it was. */
  ghost predicate Lands(packet: seq<byte>, buffer: RecvBuffer)
  {
    forall i | 0 <= i < |packet| && i < |buffer| :: buffer[i] == packet[i]
  }

  /** ToInt32 looks only at the four bytes it decodes. */
  lemma ToInt32Window(a: seq<byte>, b: seq<byte>, k: nat)
    requires k + 4 <= |a| && k + 4 <= |b| && a[k..k + 4] == b[k..k + 4]
    ensures ToInt32(a, k) == ToInt32(b, k)
  {
    assert a[k] == a[k..k + 4][0] && a[k + 1] == a[k..k + 4][1];
    assert a[k + 2] == a[k..k + 4][2] && a[k + 3] == a[k..k + 4][3];
  }

  /** A client 'm' packet makes the relay run sendUpdate with the low byte
      of the client's 32-bit counter as timestamp and the low byte of the
      32-bit object id as id: ids that agree modulo 256 name one object at
      the relay, and nothing is sent back. */
  lemma ClientUpdateAtRelay(timestamp: i32, id: i32, pose: seq<byte>, buffer: RecvBuffer,
                            r: Relay, srcAddress: u32, srcPort: u16, bytesRead: nat,
                            sendBack: Payload, junk: Payload)
    requires Lands(Packet("m", timestamp, id, pose), buffer) && bytesRead > 0
    ensures buffer[0] == Code('m') && buffer[1] == timestamp % 0x100 && buffer[5] == id % 0x100
    ensures r.Receive(srcAddress, srcPort, buffer, bytesRead, sendBack, junk)
              == Step(r.(world := r.world.SendUpdate(buffer, Signed(srcAddress))), [])
  {
    PacketBytes('m', timestamp, id, pose);
    ModelDelegation(r, srcAddress, srcPort, buffer, bytesRead, sendBack, junk);
  }

  /** Start's 'i' packet for scene object i makes the relay hold an object
      under id i modulo 256. */
  lemma SceneObjectAtRelay(i: i32, pose: seq<byte>, buffer: RecvBuffer,
                           r: Relay, srcAddress: u32, srcPort: u16, bytesRead: nat,
                           sendBack: Payload, junk: Payload)
    requires Lands(Packet("i", 0, i, pose), buffer) && bytesRead > 0
    ensures var s := r.Receive(srcAddress, srcPort, buffer, bytesRead, sendBack, junk);
            && s.sent == []
            && s.next.world.objects.Keys == r.world.objects.Keys + {i % 0x100}
  {
    PacketBytes('i', 0, i, pose);
    ModelDelegation(r, srcAddress, srcPort, buffer, bytesRead, sendBack, junk);
  }

  /** The client raises an object's counter by one per update; the relay
      accepts every one of them, across the wrap of the low byte and the
      wrap of the 32-bit counter, and still accepts the next update after
      up to four were lost. After five lost updates it can refuse: stored
      250 and five lost give 0, which is refused. */
  lemma ClientCountersAccepted(timestamp: i32, stored: byte, lost: nat)
    ensures Accepts(timestamp % 0x100, Inc32(timestamp) % 0x100)
    ensures lost <= 4 ==> Accepts(stored, (stored + lost + 1) % 0x100)
    ensures !Accepts(250, (250 + 5 + 1) % 0x100)
  {
  }

  /** An update older than the stored one is still taken when it is just
      below the wrap and the stored one just above it. */
  lemma StaleAcrossWrapAccepted()
    ensures Accepts(2, 255) && !Accepts(6, 5)
  {
  }

  /** The 'k' reply to any 'j' packet of AddNewItem (timestamp 0): byte 4,
      where the relay echoes the packet's byte 4, is the top byte of that
      zero timestamp, and bytes 5-8, where the client reads the local id
      back, are untouched reply-buffer bytes. The local id the client sent
      never reaches the reply. */
  lemma IdReplyLosesLocalId(id: i32, pose: seq<byte>, buffer: RecvBuffer,
                            r: Relay, srcAddress: u32, srcPort: u16, bytesRead: nat,
                            sendBack: Payload, junk: Payload)
    requires Lands(Packet("j", 0, id, pose), buffer) && bytesRead > 0
    ensures var s := r.Receive(srcAddress, srcPort, buffer, bytesRead, sendBack, junk);
            && |s.sent| == 1 && s.sent[0].bytes[0] == Code('k') && s.sent[0].bytes[4] == 0
            && ToInt32(s.sent[0].bytes, 5) == ToInt32(sendBack, 5)
  {
    var p := Packet("j", 0, id, pose);
    assert p == Ascii("j") + GetBytes(0) + GetBytes(id) + pose;
    assert buffer[0] == p[0] == Code('j');
    assert buffer[4] == p[4] == GetBytes(0)[3] == 0;
    InitLocalReply(r, srcAddress, srcPort, buffer, bytesRead, sendBack, junk);
    var reply := r.Receive(srcAddress, srcPort, buffer, bytesRead, sendBack, junk).sent[0].bytes;
    ToInt32Window(reply, sendBack, 5);
  }

  /** A concrete exchange: the client has local object 7 pending and sends
      its 'j'; the relay, with an empty model and a zeroed reply buffer,
      answers 'k' whose bytes 5-8 decode to 0, so the client's RecieveId
      finds no local object 0 and the object 7 never gets its id. */
  lemma IdReplyNeverMatches()
    ensures var pose: seq<byte> := [];
            var packet := Packet("j", 0, 7, pose);
            var buffer: RecvBuffer := packet + seq(256 - |packet|, _ => 0);
            var zero: Payload := seq(OBJ_PACK_LENGTH, _ => 0);
            var s := Relay([], EmptyWorld()).Receive(1, 1, buffer, |packet|, zero, zero);
            var reg := Registry(8, map[7 := NewWrapper(pose)], map[]);
            && |s.sent| == 1
            && ToInt32(s.sent[0].bytes, 5) == Some(0)
            && AssignId(reg, s.sent[0].bytes) == None
  {
    var pose: seq<byte> := [];
    var packet := Packet("j", 0, 7, pose);
    var buffer: RecvBuffer := packet + seq(256 - |packet|, _ => 0);
    var zero: Payload := seq(OBJ_PACK_LENGTH, _ => 0);
    assert Lands(packet, buffer);
    IdReplyLosesLocalId(7, pose, buffer, Relay([], EmptyWorld()), 1, 1, |packet|, zero, zero);
    assert ToInt32(zero, 5) == Some(0);
  }

  /** An accepted client update is stored whole and broadcast with byte 0
      set to 'n'; the receiving client decodes the full 32-bit counter and
      id the sender wrote, although the relay looked only at their low
      bytes, and loads exactly the sender's pose into its global wrapper of
      that id. */
  lemma BroadcastCarriesHeader(timestamp: i32, id: i32, pose: seq<byte>, buffer: RecvBuffer,
                               w: World, ip: int, reg: Registry)
    requires Lands(Packet("m", timestamp, id, pose), buffer) && |pose| == POSE_LENGTH
    requires buffer[5] in w.objects && Accepts(w.objects[buffer[5]].lastUpdatedTimestamp, buffer[1])
    ensures var b := Stamp(w.SendUpdate(buffer, ip).objects[buffer[5]].data);
            && b[0] == Code('n')
            && ToInt32(b, 1) == Some(timestamp) && ToInt32(b, 5) == Some(id)
            && (id in reg.global <==> LoadUpdate(reg, b).Some?)
            && (id in reg.global ==> LoadUpdate(reg, b).value.global == reg.global[id := Wrapper(timestamp, pose)])
  {
    var p := Packet("m", timestamp, id, pose);
    PacketDecodes("m", timestamp, id, pose);
    var b := Stamp(w.SendUpdate(buffer, ip).objects[buffer[5]].data);
    assert b[1..] == buffer[1..OBJ_PACK_LENGTH];
    assert b[1..5] == p[1..5] && b[5..9] == p[5..9];
    ToInt32Window(b, p, 1);
    ToInt32Window(b, p, 5);
    assert b[9..9 + |pose|] == p[9..];
  }
}
