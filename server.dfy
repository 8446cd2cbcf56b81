/** The relay loop bodies of server/Server.cpp: one received datagram
    handled by the `switch` of doReceiving, and one iteration of
    doSending. The two threads, their locks and the sleep are not modelled:
    each step is atomic. */
module Relay {
  import opened Bytes
  import opened Net
  import opened WorldModel

  /** TIMEOUT_TICKS: a peer whose counter exceeds it is dropped. */
  const TIMEOUT_TICKS := 10000000

  /** A datagram handed to Socket::send: destination and bytes. */
  datatype Datagram = Datagram(address: u32, port: u16, bytes: seq<byte>)

  /** Socket::send(destination, ...) uses only the address and port. */
  function SendTo(a: Address, bytes: seq<byte>): (d: Datagram)
    ensures d.address == a.address && d.port == a.port && d.bytes == bytes
  {
    Datagram(a.address, a.port, bytes)
  }

  /** The relay's shared state: the peer vector `addresses` and the model. */
  datatype Relay = Relay(addresses: seq<Address>, world: World)
  {
    /** One iteration of doReceiving for a datagram of `bytesRead` bytes from
        (srcAddress, srcPort). `buffer` is the whole 256-byte receive buffer;
        `sendBack` stands for the uninitialised reply array and `junk` for
        the uninitialised data of a new StateObject. The peer found in the
        table is copied into `sender`, so resetTimeout() and maxTimeout()
        never reach the table. */
    function Receive(srcAddress: u32, srcPort: u16, buffer: RecvBuffer, bytesRead: nat,
                     sendBack: Payload, junk: Payload): (s: Step)
      ensures |s.sent| <= 1
      ensures forall d | d in s.sent :: d.address == srcAddress && d.port == srcPort && |d.bytes| == OBJ_PACK_LENGTH
    {
      if bytesRead == 0 then Step(this, [])
      else
        var received := Make(srcAddress, srcPort);
        var j := IndexOf(addresses, received);
        var newSender := j == |addresses|;
        var sender := (if newSender then received else addresses[j]).ResetTimeout();
        var ip := Signed(sender.address);
        match buffer[0] as char
        case 'a' =>
          if newSender then
            Step(this.(addresses := addresses + [sender]), [SendTo(sender, sendBack[0 := Code('b')])])
          else
            Step(this, [])
        case 'e' =>
          var disconnected := sender.MaxTimeout();
          Step(this, [])
        case 'i' =>
          Step(this.(world := world.InitializeGlobal(buffer, ip, junk)), [])
        case 'j' =>
          var (w, newId) := world.InitializeLocal(buffer, ip, junk);
          var theirId := buffer[4];
          var reply := sendBack[0 := Code('k')][1 := if newId then 1 else 0][4 := theirId];
          Step(this.(world := w), [SendTo(sender, reply)])
        case 'm' =>
          Step(this.(world := world.SendUpdate(buffer, ip)), [])
        case _ =>
          Step(this, [])
    }

    /** One iteration of doSending, with the snapshot of objects and dirty
        ids taken at its start and the dirty list cleared at its end. */
    function Tick(): (s: Step)
      ensures s.next.world.updatedIds == [] && s.next.world.objects == world.objects
      ensures s.next.world.soid == world.soid
    {
      var objects := world.objects;
      var ids := world.updatedIds;
      Step(Relay(Survivors(addresses), world.ResetIdsToUpdate()), TickSends(addresses, objects, ids))
    }
  }

  /** The state after a step and the datagrams the step sent, in order. */
  datatype Step = Step(next: Relay, sent: seq<Datagram>)

  predicate Known(peers: seq<Address>, a: Address)
  {
    exists i | 0 <= i < |peers| :: peers[i].Eq(a)
  }

  /** No two stored peers compare equal. */
  ghost predicate UniquePeers(peers: seq<Address>)
  {
    forall i, j | 0 <= i < j < |peers| :: !peers[i].Eq(peers[j])
  }

  /** Every stored counter is at most one past the threshold. */
  ghost predicate Bounded(peers: seq<Address>)
  {
    forall i | 0 <= i < |peers| :: peers[i].timeout <= TIMEOUT_TICKS + 1
  }

  /** Position of the first stored peer equal to `a`, or the number of
      peers when there is none (std::find with operator==). */
  function IndexOf(peers: seq<Address>, a: Address): (i: nat)
    ensures i <= |peers|
    ensures i < |peers| ==> peers[i].Eq(a)
    ensures forall k | 0 <= k < i :: !peers[k].Eq(a)
  {
    if peers == [] then 0
    else if peers[0].Eq(a) then 0
    else 1 + IndexOf(peers[1..], a)
  }

  /** `stateObjects[id].data[0] = 'n'`: the broadcast form of a packet. */
  function Stamp(data: Payload): (b: Payload)
    ensures b[0] == Code('n') && b[1..] == data[1..]
  {
    data[0 := Code('n')]
  }

  /** The dirty ids whose object is sent to peer `p`: present in the
      snapshot and not last updated from p's address. */
  function Forwarded(p: Address, objects: map<int, StateObject>, ids: seq<int>): (f: seq<int>)
    ensures |f| <= |ids|
    ensures forall id | id in f :: id in objects && objects[id].lastUpdatedIP != Signed(p.address)
  {
    if ids == [] then []
    else
      var id := ids[|ids| - 1];
      Forwarded(p, objects, ids[..|ids| - 1])
        + (if id in objects && objects[id].lastUpdatedIP != Signed(p.address) then [id] else [])
  }

  /** The object packets the inner loop of doSending sends to a live peer. */
  function ObjectSends(p: Address, objects: map<int, StateObject>, ids: seq<int>): (s: seq<Datagram>)
    ensures forall d | d in s :: d.address == p.address && d.port == p.port
  {
    if ids == [] then []
    else
      var id := ids[|ids| - 1];
      ObjectSends(p, objects, ids[..|ids| - 1])
        + (if id in objects && objects[id].lastUpdatedIP != Signed(p.address)
           then [SendTo(p, Stamp(objects[id].data))] else [])
  }

  /** What one peer receives in a tick: a 1-byte 'd' if it timed out,
      otherwise the dirty objects it did not produce. */
  function PeerSends(p: Address, objects: map<int, StateObject>, ids: seq<int>): (s: seq<Datagram>)
    ensures forall d | d in s :: d.address == p.address && d.port == p.port
  {
    if p.timeout > TIMEOUT_TICKS then [SendTo(p, [Code('d')])] else ObjectSends(p, objects, ids)
  }

  /** Everything a tick sends, peer by peer in table order. */
  function TickSends(peers: seq<Address>, objects: map<int, StateObject>, ids: seq<int>): (s: seq<Datagram>)
    ensures forall d | d in s :: exists i | 0 <= i < |peers| :: d.address == peers[i].address && d.port == peers[i].port
  {
    if peers == [] then []
    else
      var n := |peers| - 1;
      var s := TickSends(peers[..n], objects, ids) + PeerSends(peers[n], objects, ids);
      assert forall d | d in s :: exists i | 0 <= i < |peers| :: d.address == peers[i].address && d.port == peers[i].port by {
        forall d | d in s
          ensures exists i | 0 <= i < |peers| :: d.address == peers[i].address && d.port == peers[i].port
        {
          if d in TickSends(peers[..n], objects, ids) {
            var i :| 0 <= i < n && d.address == peers[..n][i].address && d.port == peers[..n][i].port;
            assert peers[..n][i] == peers[i];
          } else {
            assert d.address == peers[n].address && d.port == peers[n].port;
          }
        }
      }
      s
  }

  /** The peer vector a tick leaves: timed-out peers dropped, the others
      kept in order with one more tick on their counter. */
  function Survivors(peers: seq<Address>): (s: seq<Address>)
    ensures |s| <= |peers|
  {
    if peers == [] then []
    else
      var p := peers[|peers| - 1];
      Survivors(peers[..|peers| - 1]) + (if p.timeout > TIMEOUT_TICKS then [] else [p.IncTimeout()])
  }

  /** The datagrams of `sends` addressed to peer `p`'s endpoint. */
  function SentTo(sends: seq<Datagram>, p: Address): (s: seq<Datagram>)
    ensures |s| <= |sends|
  {
    if sends == [] then []
    else
      var d := sends[|sends| - 1];
      SentTo(sends[..|sends| - 1], p) + (if d.address == p.address && d.port == p.port then [d] else [])
  }

  // ----- received datagrams -----

  /** A receive of zero bytes is skipped. */
  lemma EmptyDatagramIgnored(r: Relay, srcAddress: u32, srcPort: u16, buffer: RecvBuffer,
                             sendBack: Payload, junk: Payload)
    ensures r.Receive(srcAddress, srcPort, buffer, 0, sendBack, junk) == Step(r, [])
  {
  }

  /** 'a' from an endpoint no stored peer equals appends it with a zero
      counter and answers with a 255-byte packet starting with 'b'; 'a'
      from a known endpoint changes nothing and sends nothing. */
  lemma Handshake(r: Relay, srcAddress: u32, srcPort: u16, buffer: RecvBuffer, bytesRead: nat,
                  sendBack: Payload, junk: Payload)
    requires bytesRead > 0 && buffer[0] == Code('a')
    ensures var s := r.Receive(srcAddress, srcPort, buffer, bytesRead, sendBack, junk);
            if Known(r.addresses, Make(srcAddress, srcPort)) then
              s == Step(r, [])
            else
              && s.next == r.(addresses := r.addresses + [Make(srcAddress, srcPort)])
              && |s.sent| == 1 && s.sent[0].address == srcAddress && s.sent[0].port == srcPort
              && |s.sent[0].bytes| == OBJ_PACK_LENGTH && s.sent[0].bytes[0] == Code('b')
  {
    var j := IndexOf(r.addresses, Make(srcAddress, srcPort));
    if Known(r.addresses, Make(srcAddress, srcPort)) {
      var i :| 0 <= i < |r.addresses| && r.addresses[i].Eq(Make(srcAddress, srcPort));
      assert j <= i;
    }
  }

  /** 'j' runs initializeLocal and answers 'k' with byte 1 the `bool`
      result of initializeLocal (0 or 1, not the id) and byte 4 the
      packet's byte 4. */
  lemma InitLocalReply(r: Relay, srcAddress: u32, srcPort: u16, buffer: RecvBuffer, bytesRead: nat,
                       sendBack: Payload, junk: Payload)
    requires bytesRead > 0 && buffer[0] == Code('j')
    ensures var s := r.Receive(srcAddress, srcPort, buffer, bytesRead, sendBack, junk);
            && s.next.addresses == r.addresses
            && s.next.world == r.world.InitializeLocal(buffer, Signed(srcAddress), junk).0
            && |s.sent| == 1 && s.sent[0].address == srcAddress && s.sent[0].port == srcPort
            && s.sent[0].bytes[0] == Code('k')
            && s.sent[0].bytes[1] == (if r.world.soid != 0 then 1 else 0)
            && s.sent[0].bytes[4] == buffer[4]
            && s.sent[0].bytes[2..4] == sendBack[2..4] && s.sent[0].bytes[5..] == sendBack[5..]
  {
  }

  /** 'm' and 'i' hand the packet and the sender's address, as an `int`,
      to sendUpdate and initializeGlobal; they reply nothing. */
  lemma ModelDelegation(r: Relay, srcAddress: u32, srcPort: u16, buffer: RecvBuffer, bytesRead: nat,
                        sendBack: Payload, junk: Payload)
    requires bytesRead > 0
    ensures buffer[0] == Code('m') ==>
              r.Receive(srcAddress, srcPort, buffer, bytesRead, sendBack, junk)
                == Step(r.(world := r.world.SendUpdate(buffer, Signed(srcAddress))), [])
    ensures buffer[0] == Code('i') ==>
              r.Receive(srcAddress, srcPort, buffer, bytesRead, sendBack, junk)
                == Step(r.(world := r.world.InitializeGlobal(buffer, Signed(srcAddress), junk)), [])
  {
  }

  /** Every tag other than a, i, j and m, including the client's
      disconnect 'e', changes neither peers nor objects and sends nothing. */
  lemma OtherTagsIgnored(r: Relay, srcAddress: u32, srcPort: u16, buffer: RecvBuffer, bytesRead: nat,
                         sendBack: Payload, junk: Payload)
    requires buffer[0] !in {Code('a'), Code('i'), Code('j'), Code('m')}
    ensures r.Receive(srcAddress, srcPort, buffer, bytesRead, sendBack, junk) == Step(r, [])
  {
  }

  /** Handling a datagram never changes a stored peer, timeout included;
      at most one peer is appended, and the table stays free of duplicates
      and within the timeout bound. */
  lemma ReceiveKeepsStoredPeers(r: Relay, srcAddress: u32, srcPort: u16, buffer: RecvBuffer, bytesRead: nat,
                                sendBack: Payload, junk: Payload)
    ensures var s := r.Receive(srcAddress, srcPort, buffer, bytesRead, sendBack, junk);
            && |r.addresses| <= |s.next.addresses| <= |r.addresses| + 1
            && s.next.addresses[..|r.addresses|] == r.addresses
    ensures UniquePeers(r.addresses) ==>
              UniquePeers(r.Receive(srcAddress, srcPort, buffer, bytesRead, sendBack, junk).next.addresses)
    ensures Bounded(r.addresses) ==>
              Bounded(r.Receive(srcAddress, srcPort, buffer, bytesRead, sendBack, junk).next.addresses)
  {
    var s := r.Receive(srcAddress, srcPort, buffer, bytesRead, sendBack, junk);
    var a := Make(srcAddress, srcPort);
    if |s.next.addresses| > |r.addresses| {
      assert s.next.addresses == r.addresses + [a];
    }
  }

  /** Handling a datagram keeps the model consistent. */
  lemma ReceiveKeepsWorldValid(r: Relay, srcAddress: u32, srcPort: u16, buffer: RecvBuffer, bytesRead: nat,
                               sendBack: Payload, junk: Payload)
    requires r.world.Valid()
    ensures r.Receive(srcAddress, srcPort, buffer, bytesRead, sendBack, junk).next.world.Valid()
  {
    var ip := Signed(srcAddress);
    var s := r.Receive(srcAddress, srcPort, buffer, bytesRead, sendBack, junk);
    if bytesRead == 0 {
    } else if buffer[0] == Code('m') {
      ModelDelegation(r, srcAddress, srcPort, buffer, bytesRead, sendBack, junk);
      SendUpdateMarksDirtyOnce(r.world, buffer, ip);
    } else if buffer[0] == Code('i') {
      ModelDelegation(r, srcAddress, srcPort, buffer, bytesRead, sendBack, junk);
      if buffer[5] !in r.world.objects {
        InitializeGlobalCreates(r.world, buffer, ip, junk);
      }
    } else if buffer[0] == Code('j') {
      InitLocalReply(r, srcAddress, srcPort, buffer, bytesRead, sendBack, junk);
      InitializeLocalAllocates(r.world, buffer, ip, junk);
    } else if buffer[0] != Code('a') {
      OtherTagsIgnored(r, srcAddress, srcPort, buffer, bytesRead, sendBack, junk);
    }
  }

  /** The sentinel written on disconnect is not above the threshold, so a
      peer holding it would still be kept, and ticked, by the next tick. */
  lemma DisconnectSentinelBelowThreshold(p: Address)
    ensures MAX_TIMEOUT <= TIMEOUT_TICKS
    ensures Survivors([p.MaxTimeout()]) == [p.MaxTimeout().IncTimeout()]
  {
    assert [p.MaxTimeout()][..0] == [];
  }

  // ----- the broadcast tick -----

  lemma {:induction false} SentToConcat(a: seq<Datagram>, b: seq<Datagram>, p: Address)
    ensures SentTo(a + b, p) == SentTo(a, p) + SentTo(b, p)
  {
    if b != [] {
      assert (a + b)[..|a + b| - 1] == a + b[..|b| - 1];
      SentToConcat(a, b[..|b| - 1], p);
    } else {
      assert a + b == a;
    }
  }

  /** Datagrams all addressed to `q` are all or none addressed to `p`. */
  lemma {:induction false} SentToUniform(s: seq<Datagram>, q: Address, p: Address)
    requires forall d | d in s :: d.address == q.address && d.port == q.port
    ensures SentTo(s, p) == if q.Eq(p) then s else []
  {
    if s != [] {
      SentToUniform(s[..|s| - 1], q, p);
      assert s == s[..|s| - 1] + [s[|s| - 1]];
    }
  }

  /** With no duplicate peers, what a tick sends to the endpoint of peer k
      is exactly that peer's share. */
  lemma {:induction false} TickSendsTo(peers: seq<Address>, objects: map<int, StateObject>, ids: seq<int>, k: nat)
    requires UniquePeers(peers) && k < |peers|
    ensures SentTo(TickSends(peers, objects, ids), peers[k]) == PeerSends(peers[k], objects, ids)
  {
    var n := |peers| - 1;
    var init := peers[..n];
    var last := peers[n];
    SentToConcat(TickSends(init, objects, ids), PeerSends(last, objects, ids), peers[k]);
    SentToUniform(PeerSends(last, objects, ids), last, peers[k]);
    if k < n {
      assert !last.Eq(peers[k]);
      TickSendsTo(init, objects, ids, k);
    } else {
      NoneSentTo(init, objects, ids, last);
    }
  }

  /** A tick sends nothing to an endpoint that none of the peers has. */
  lemma {:induction false} NoneSentTo(peers: seq<Address>, objects: map<int, StateObject>, ids: seq<int>, p: Address)
    requires forall i | 0 <= i < |peers| :: !peers[i].Eq(p)
    ensures SentTo(TickSends(peers, objects, ids), p) == []
  {
    if peers != [] {
      var n := |peers| - 1;
      SentToConcat(TickSends(peers[..n], objects, ids), PeerSends(peers[n], objects, ids), p);
      SentToUniform(PeerSends(peers[n], objects, ids), peers[n], p);
      NoneSentTo(peers[..n], objects, ids, p);
    }
  }

  /** A dirty id is forwarded to p exactly when its object is in the
      snapshot and was not last updated from p's address. */
  lemma {:induction false} ForwardedMembers(p: Address, objects: map<int, StateObject>, ids: seq<int>, id: int)
    ensures id in Forwarded(p, objects, ids) <==>
              id in ids && id in objects && objects[id].lastUpdatedIP != Signed(p.address)
  {
    if ids != [] {
      var n := |ids| - 1;
      ForwardedMembers(p, objects, ids[..n], id);
      assert ids == ids[..n] + [ids[n]];
    }
  }

  /** The object packets sent to p are the stamped packets of the
      forwarded ids, in dirty-list order. */
  lemma {:induction false} ObjectSendsAreForwarded(p: Address, objects: map<int, StateObject>, ids: seq<int>)
    ensures var f := Forwarded(p, objects, ids);
            var s := ObjectSends(p, objects, ids);
            && |s| == |f|
            && forall k | 0 <= k < |s| :: s[k] == SendTo(p, Stamp(objects[f[k]].data))
  {
    if ids != [] {
      ObjectSendsAreForwarded(p, objects, ids[..|ids| - 1]);
    }
  }

  /** A timed-out peer receives exactly one 1-byte 'd' and nothing else in
      the tick, and no peer equal to it is left in the table. */
  lemma EvictedPeer(r: Relay, k: nat)
    requires UniquePeers(r.addresses) && k < |r.addresses|
    requires r.addresses[k].timeout > TIMEOUT_TICKS
    ensures SentTo(r.Tick().sent, r.addresses[k]) == [SendTo(r.addresses[k], [Code('d')])]
    ensures !Known(r.Tick().next.addresses, r.addresses[k])
  {
    TickSendsTo(r.addresses, r.world.objects, r.world.updatedIds, k);
    var p := r.addresses[k];
    forall j | 0 <= j < |r.addresses| && r.addresses[j].timeout <= TIMEOUT_TICKS
      ensures !r.addresses[j].Eq(p)
    {
      assert j != k;
    }
    SurvivorsExclude(r.addresses, p);
  }

  /** No survivor equals an endpoint that no live peer equals. */
  lemma {:induction false} SurvivorsExclude(peers: seq<Address>, p: Address)
    requires forall j | 0 <= j < |peers| && peers[j].timeout <= TIMEOUT_TICKS :: !peers[j].Eq(p)
    ensures forall i | 0 <= i < |Survivors(peers)| :: !Survivors(peers)[i].Eq(p)
  {
    if peers != [] {
      var n := |peers| - 1;
      forall j | 0 <= j < n && peers[..n][j].timeout <= TIMEOUT_TICKS
        ensures !peers[..n][j].Eq(p)
      {
        assert peers[..n][j] == peers[j];
      }
      SurvivorsExclude(peers[..n], p);
    }
  }

  /** A live peer receives, as 255-byte packets starting with 'n', exactly
      the dirty objects present in the snapshot whose last update did not
      come from its address, in dirty-list order; it never receives its own
      update back. */
  lemma LivePeer(r: Relay, k: nat)
    requires UniquePeers(r.addresses) && k < |r.addresses|
    requires r.addresses[k].timeout <= TIMEOUT_TICKS
    ensures var p := r.addresses[k];
            var f := Forwarded(p, r.world.objects, r.world.updatedIds);
            var s := SentTo(r.Tick().sent, p);
            && |s| == |f|
            && (forall i | 0 <= i < |s| ::
                  && s[i].bytes == Stamp(r.world.objects[f[i]].data)
                  && |s[i].bytes| == OBJ_PACK_LENGTH && s[i].bytes[0] == Code('n'))
            && (forall id :: id in f <==>
                  id in r.world.updatedIds && id in r.world.objects
                  && r.world.objects[id].lastUpdatedIP != Signed(p.address))
  {
    var p := r.addresses[k];
    TickSendsTo(r.addresses, r.world.objects, r.world.updatedIds, k);
    ObjectSendsAreForwarded(p, r.world.objects, r.world.updatedIds);
    forall id ensures id in Forwarded(p, r.world.objects, r.world.updatedIds) <==>
                      id in r.world.updatedIds && id in r.world.objects
                      && r.world.objects[id].lastUpdatedIP != Signed(p.address)
    {
      ForwardedMembers(p, r.world.objects, r.world.updatedIds, id);
    }
  }

  /** Each survivor is a kept peer with its counter one higher, and each
      peer at or below the threshold survives. */
  lemma {:induction false} SurvivorsFrom(peers: seq<Address>, i: nat)
    requires i < |Survivors(peers)|
    ensures exists j | 0 <= j < |peers| :: peers[j].timeout <= TIMEOUT_TICKS
              && Survivors(peers)[i] == peers[j].IncTimeout()
              && Survivors(peers)[i].timeout == peers[j].timeout + 1
  {
    var n := |peers| - 1;
    var init := Survivors(peers[..n]);
    if i < |init| {
      SurvivorsFrom(peers[..n], i);
      var j :| 0 <= j < n && peers[..n][j].timeout <= TIMEOUT_TICKS
               && init[i] == peers[..n][j].IncTimeout() && init[i].timeout == peers[..n][j].timeout + 1;
      assert peers[j] == peers[..n][j];
    } else {
      assert Survivors(peers)[i] == peers[n].IncTimeout();
    }
  }

  lemma {:induction false} SurvivorsKeep(peers: seq<Address>, j: nat)
    requires j < |peers| && peers[j].timeout <= TIMEOUT_TICKS
    ensures peers[j].IncTimeout() in Survivors(peers)
  {
    var n := |peers| - 1;
    if j < n {
      SurvivorsKeep(peers[..n], j);
    }
  }

  /** Survivors works peer by peer: the survivors of a joined table are
      the survivors of each part, joined in the same order. */
  lemma {:induction false} SurvivorsConcat(a: seq<Address>, b: seq<Address>)
    ensures Survivors(a + b) == Survivors(a) + Survivors(b)
  {
    if b == [] {
      assert a + b == a;
    } else {
      var n := |b| - 1;
      assert (a + b)[..|a + b| - 1] == a + b[..n];
      assert (a + b)[|a + b| - 1] == b[n];
      SurvivorsConcat(a, b[..n]);
    }
  }

  /** Two live peers keep their relative order in the new table. */
  lemma SurvivorsKeepOrder(peers: seq<Address>, i: nat, j: nat)
    requires i < j < |peers| && peers[i].timeout <= TIMEOUT_TICKS && peers[j].timeout <= TIMEOUT_TICKS
    ensures exists x, y | 0 <= x < y < |Survivors(peers)| ::
              Survivors(peers)[x] == peers[i].IncTimeout() && Survivors(peers)[y] == peers[j].IncTimeout()
  {
    var front, back := peers[..j], peers[j..];
    assert peers == front + back;
    SurvivorsConcat(front, back);
    assert back == [peers[j]] + back[1..];
    SurvivorsConcat([peers[j]], back[1..]);
    assert [peers[j]][..0] == [];
    assert front[i] == peers[i];
    SurvivorsKeep(front, i);
    var x :| 0 <= x < |Survivors(front)| && Survivors(front)[x] == peers[i].IncTimeout();
    var y := |Survivors(front)|;
    assert Survivors(peers)[x] == peers[i].IncTimeout();
    assert Survivors(peers)[y] == peers[j].IncTimeout();
  }

  /** After a tick: the dirty list is empty, the table holds exactly the
      peers at or below the threshold with their counters one higher, it
      has no duplicates if it had none, and counters stay within bound. */
  lemma TickState(r: Relay)
    ensures r.Tick().next.world.updatedIds == []
    ensures forall j | 0 <= j < |r.addresses| && r.addresses[j].timeout <= TIMEOUT_TICKS ::
              r.addresses[j].IncTimeout() in r.Tick().next.addresses
    ensures Bounded(r.Tick().next.addresses)
    ensures UniquePeers(r.addresses) ==> UniquePeers(r.Tick().next.addresses)
    ensures forall i, j | 0 <= i < j < |r.addresses|
              && r.addresses[i].timeout <= TIMEOUT_TICKS && r.addresses[j].timeout <= TIMEOUT_TICKS ::
              exists x, y | 0 <= x < y < |r.Tick().next.addresses| ::
                r.Tick().next.addresses[x] == r.addresses[i].IncTimeout()
                && r.Tick().next.addresses[y] == r.addresses[j].IncTimeout()
  {
    var s := Survivors(r.addresses);
    forall j | 0 <= j < |r.addresses| && r.addresses[j].timeout <= TIMEOUT_TICKS
      ensures r.addresses[j].IncTimeout() in s
    {
      SurvivorsKeep(r.addresses, j);
    }
    forall i | 0 <= i < |s| ensures s[i].timeout <= TIMEOUT_TICKS + 1 {
      SurvivorsFrom(r.addresses, i);
    }
    if UniquePeers(r.addresses) {
      SurvivorsUnique(r.addresses);
    }
    forall i, j | 0 <= i < j < |r.addresses|
      && r.addresses[i].timeout <= TIMEOUT_TICKS && r.addresses[j].timeout <= TIMEOUT_TICKS
      ensures exists x, y | 0 <= x < y < |s| :: s[x] == r.addresses[i].IncTimeout() && s[y] == r.addresses[j].IncTimeout()
    {
      SurvivorsKeepOrder(r.addresses, i, j);
    }
  }

  lemma {:induction false} SurvivorsUnique(peers: seq<Address>)
    requires UniquePeers(peers)
    ensures UniquePeers(Survivors(peers))
  {
    if peers != [] {
      var n := |peers| - 1;
      var init := Survivors(peers[..n]);
      SurvivorsUnique(peers[..n]);
      if peers[n].timeout <= TIMEOUT_TICKS {
        forall i | 0 <= i < |init| ensures !init[i].Eq(peers[n].IncTimeout()) {
          SurvivorsFrom(peers[..n], i);
          var j :| 0 <= j < n && peers[..n][j].timeout <= TIMEOUT_TICKS
                   && init[i] == peers[..n][j].IncTimeout();
          assert !peers[j].Eq(peers[n]);
        }
      }
    }
  }

  /** The relay's threads as one object: the peer vector and the model. */
  class Server {
    var addresses: seq<Address>
    const model: Model

    function Abs(): Relay
      reads this, model
    {
      Relay(addresses, model.Abs())
    }

    constructor ()
      ensures Abs() == Relay([], EmptyWorld()) && fresh(model)
    {
      addresses := [];
      model := new Model();
    }

    /** The lookup of doReceiving: the first stored peer equal to `sender`,
        or the number of peers when there is none. */
    method FindPeer(sender: Address) returns (j: nat)
      ensures j == IndexOf(addresses, sender)
    {
      j := 0;
      while j < |addresses| && !addresses[j].Eq(sender)
        invariant j <= |addresses|
        invariant IndexOf(addresses, sender) == j + IndexOf(addresses[j..], sender)
      {
        assert addresses[j..][1..] == addresses[j + 1..];
        j := j + 1;
      }
    }

    method DoReceiving(srcAddress: u32, srcPort: u16, buffer: RecvBuffer, bytesRead: nat,
                       sendBack: Payload, junk: Payload) returns (sent: seq<Datagram>)
      modifies this, model
      ensures Step(Abs(), sent) == old(Abs()).Receive(srcAddress, srcPort, buffer, bytesRead, sendBack, junk)
    {
      sent := [];
      if bytesRead == 0 {
        return;
      }
      var sender := Make(srcAddress, srcPort);
      var newSender := false;
      var j := FindPeer(sender);
      if j < |addresses| {
        sender := addresses[j];
      } else {
        newSender := true;
      }
      sender := sender.ResetTimeout();
      match buffer[0] as char
      case 'a' =>
        if newSender {
          addresses := addresses + [sender];
          sent := [SendTo(sender, sendBack[0 := Code('b')])];
        }
      case 'e' =>
        sender := sender.MaxTimeout();
      case 'i' =>
        model.InitializeGlobal(buffer, Signed(sender.address), junk);
      case 'j' =>
        var newId := model.InitializeLocal(buffer, Signed(sender.address), junk);
        var theirId := buffer[4];
        var reply := sendBack[0 := Code('k')][1 := if newId then 1 else 0][4 := theirId];
        sent := [SendTo(sender, reply)];
      case 'm' =>
        model.SendUpdate(buffer, Signed(sender.address));
      case _ =>
    }

    method DoSending() returns (sent: seq<Datagram>)
      modifies this, model
      ensures Step(Abs(), sent) == old(Abs()).Tick()
    {
      var stateObjects := model.stateObjects;
      var idsToUpdate := model.updatedIds;
      var nextAddresses := [];
      sent := [];
      var i := 0;
      while i < |addresses|
        invariant 0 <= i <= |addresses|
        invariant nextAddresses == Survivors(addresses[..i])
        invariant sent == TickSends(addresses[..i], stateObjects, idsToUpdate)
      {
        var peer := addresses[i];
        assert addresses[..i + 1][..i] == addresses[..i];
        if peer.timeout > TIMEOUT_TICKS {
          sent := sent + [SendTo(peer, [Code('d')])];
        } else {
          var ip := Signed(peer.address);
          var out := [];
          var j := 0;
          while j < |idsToUpdate|
            invariant 0 <= j <= |idsToUpdate|
            invariant out == ObjectSends(peer, stateObjects, idsToUpdate[..j])
          {
            var id := idsToUpdate[j];
            assert idsToUpdate[..j + 1][..j] == idsToUpdate[..j];
            if id in stateObjects && stateObjects[id].lastUpdatedIP != ip {
              out := out + [SendTo(peer, Stamp(stateObjects[id].data))];
            }
            j := j + 1;
          }
          assert idsToUpdate[..j] == idsToUpdate;
          sent := sent + out;
          nextAddresses := nextAddresses + [peer.IncTimeout()];
        }
        i := i + 1;
      }
      assert addresses[..i] == addresses;
      addresses := nextAddresses;
      model.ResetIdsToUpdate();
    }
  }
}
