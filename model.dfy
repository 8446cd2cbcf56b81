/** The relay's world model, server/Model.h: a map from object id to the
    last accepted state of that object, the list of ids to broadcast on the
    next tick (the "dirty" list), and the counter SOID that every default
    construction of a StateObject advances. */
module WorldModel {
  import opened Bytes

  /** OBJ_PACK_LENGTH: size of an object's stored packet. */
  const OBJ_PACK_LENGTH := 255

  /** The stored packet of an object (a C array of OBJ_PACK_LENGTH bytes). */
  type Payload = s: seq<byte> | |s| == OBJ_PACK_LENGTH witness seq(OBJ_PACK_LENGTH, _ => 0)

  /** The receive buffer of the relay: 256 bytes, of which only the first
      `bytes_read` come from the current datagram; the others are whatever
      the buffer held before. */
  type RecvBuffer = s: seq<byte> | |s| == 256 witness seq(256, _ => 0)

  /** The state of one tracked object. */
  datatype StateObject = StateObject(
    lastUpdatedTimestamp: int,
    lastUpdatedIP: int,
    objectID: int,
    data: Payload,
    timesUpdated: int)
  {
    /** update(timestamp, ip, newData): the object after the copy loop. */
    function Update(timestamp: int, ip: int, newData: RecvBuffer): (o: StateObject)
      ensures o.objectID == objectID
    {
      StateObject(timestamp, ip, objectID, newData[..OBJ_PACK_LENGTH], timesUpdated + 1)
    }
  }

  /** StateObject(): the object built by the default constructor when the
      counter holds `soid`. Its data array is left uninitialised; `junk`
      stands for whatever bytes it holds. */
  function Blank(soid: int, junk: Payload): (o: StateObject)
    ensures o.objectID == soid && o.data == junk
    ensures o.lastUpdatedTimestamp == 0 && o.lastUpdatedIP == 0 && o.timesUpdated == 0
  {
    StateObject(0, 0, soid, junk, 0)
  }

  /** The last-write-wins rule of sendUpdate: an incoming 8-bit timestamp
      supersedes the stored one if it is not older, or if the stored one is
      near the top of the byte range and the incoming one near the bottom.
      Every byte at most four steps ahead of the stored one, modulo 256, is
      accepted. */
  predicate Accepts(stored: int, incoming: int)
    ensures 0 <= stored < 0x100 && 0 <= incoming < 0x100 && (incoming - stored) % 0x100 <= 4 ==>
              Accepts(stored, incoming)
  {
    stored <= incoming || (stored > 250 && incoming < 5)
  }

  /** The acceptance rule at its edges: the whole wrap band (stored 251 to
      255, incoming 0 to 4) is accepted, and every other older timestamp is
      refused. */
  lemma AcceptsBoundaries()
    ensures Accepts(250, 251) && !Accepts(251, 250)
    ensures Accepts(255, 0) && Accepts(251, 4) && !Accepts(251, 5)
    ensures !Accepts(250, 0) && !Accepts(5, 4) && Accepts(7, 7)
    ensures forall s, i | 251 <= s <= 255 && 0 <= i <= 4 :: Accepts(s, i)
    ensures forall s, i | 0 <= i < s <= 250 :: !Accepts(s, i)
    ensures forall s, i | 5 <= i < s <= 255 :: !Accepts(s, i)
  {
  }

  /** Number of occurrences of `x` in `s`. */
  function Count(s: seq<int>, x: int): (n: nat)
    ensures n <= |s|
    ensures n == 0 <==> x !in s
  {
    if s == [] then 0
    else Count(s[..|s| - 1], x) + (if s[|s| - 1] == x then 1 else 0)
  }

  predicate Distinct(s: seq<int>)
  {
    forall i, j | 0 <= i < j < |s| :: s[i] != s[j]
  }

  /** In a list without repetitions every member occurs exactly once. */
  lemma {:induction false} DistinctCount(s: seq<int>, x: int)
    requires Distinct(s) && x in s
    ensures Count(s, x) == 1
  {
    var last := |s| - 1;
    var init := s[..last];
    assert s == init + [s[last]];
    if s[last] == x {
      assert x !in init by {
        forall i | 0 <= i < |init| ensures init[i] != x {
          assert s[i] != s[last];
        }
      }
    } else {
      assert x in init by {
        var i :| 0 <= i < |s| && s[i] == x;
        assert i < last && init[i] == x;
      }
      DistinctCount(init, x);
    }
  }

  /** The world: object map, dirty list and the SOID counter. */
  datatype World = World(objects: map<int, StateObject>, updatedIds: seq<int>, soid: int)
  {
    /** Every entry is stored under its own objectID; the dirty list names
        only stored objects and names each at most once. */
    ghost predicate Valid()
    {
      && (forall id | id in objects :: objects[id].objectID == id)
      && (forall i | 0 <= i < |updatedIds| :: updatedIds[i] in objects)
      && Distinct(updatedIds)
    }

    /** sendUpdate(newData, ip): the timestamp is byte 1 and the object id
        byte 5 of the packet. Unknown ids and stale timestamps are dropped;
        an accepted packet replaces the object's state and schedules it. */
    function SendUpdate(newData: RecvBuffer, ip: int): (w: World)
      ensures w.soid == soid && w.objects.Keys == objects.Keys
      ensures forall id | id in objects && id != newData[5] :: w.objects[id] == objects[id]
      ensures |updatedIds| <= |w.updatedIds| <= |updatedIds| + 1
      ensures w.updatedIds[..|updatedIds|] == updatedIds
    {
      var timestamp := newData[1] as int;
      var id := newData[5] as int;
      if id !in objects then this
      else if Accepts(objects[id].lastUpdatedTimestamp, timestamp) then
        var o := objects[id].Update(timestamp, ip, newData);
        var ids := if o.objectID in updatedIds then updatedIds else updatedIds + [o.objectID];
        World(objects[id := o], ids, soid)
      else this
    }

    /** initializeGlobal(newData, ip): creates object byte 5 unless it
        exists. `stateObjects[id] = StateObject()` default-constructs twice
        (the temporary and the entry operator[] inserts), so SOID advances
        by two; the entry then gets its id and, through update(), the whole
        packet with timestamp 0. The dirty list is not touched. */
    function InitializeGlobal(newData: RecvBuffer, ip: int, junk: Payload): (w: World)
      ensures w.updatedIds == updatedIds
      ensures w.objects.Keys == objects.Keys + {newData[5] as int}
      ensures forall k | k in objects :: w.objects[k] == objects[k]
      ensures w.soid == if newData[5] as int in objects then soid else soid + 2
    {
      var id := newData[5] as int;
      if id in objects then this
      else
        var entry := Blank(soid, junk).(objectID := id).Update(0, ip, newData);
        World(objects[id := entry], updatedIds, soid + 2)
    }

    /** initializeLocal(newData, ip): allocates the id SOID, stores the
        freshly constructed object under it (an existing entry with that id
        is overwritten; a new key costs a second construction inside
        operator[]), and schedules it. update() is applied to the local
        copy after it was stored, so the stored entry keeps timestamp 0, ip
        0 and the uninitialised data. The function is declared `bool`, so
        the id is returned as `id != 0`. */
    function InitializeLocal(newData: RecvBuffer, ip: int, junk: Payload): (r: (World, bool))
      ensures r.0.soid > soid
      ensures r.0.objects.Keys == objects.Keys + {soid}
      ensures forall k | k in objects && k != soid :: r.0.objects[k] == objects[k]
      ensures soid in r.0.updatedIds
      ensures r.0.updatedIds == updatedIds || r.0.updatedIds == updatedIds + [soid]
      ensures r.0.soid == soid + (if soid in objects then 1 else 2)
    {
      var stateObject := Blank(soid, junk);
      var id := stateObject.objectID;
      var counter := if id in objects then soid + 1 else soid + 2;
      var stored := objects[id := stateObject];
      var ids := if stored[id].objectID in updatedIds then updatedIds else updatedIds + [id];
      (World(stored, ids, counter), id != 0)
    }

    /** resetIdsToUpdate(): empties the dirty list. */
    function ResetIdsToUpdate(): (w: World)
      ensures w.updatedIds == []
      ensures w.objects == objects && w.soid == soid
    {
      this.(updatedIds := [])
    }
  }

  /** The model created by `Model()`. */
  function EmptyWorld(): (w: World)
    ensures w.Valid() && w.objects == map[] && w.updatedIds == [] && w.soid == 0
  {
    World(map[], [], 0)
  }

  /** An update for an id the map does not hold changes nothing. */
  lemma SendUpdateUnknownId(w: World, newData: RecvBuffer, ip: int)
    requires newData[5] !in w.objects
    ensures w.SendUpdate(newData, ip) == w
  {
  }

  /** The acceptance rule, both ways: the stored object is updated exactly
      when the rule accepts byte 1, and a rejected packet changes nothing.
      On acceptance the object holds the packet, byte 1, the sender's ip and
      one more update. */
  lemma SendUpdateAcceptance(w: World, newData: RecvBuffer, ip: int)
    requires newData[5] in w.objects
    ensures var o := w.objects[newData[5]];
            var n := w.SendUpdate(newData, ip).objects[newData[5]];
            n.timesUpdated == o.timesUpdated + 1 <==> Accepts(o.lastUpdatedTimestamp, newData[1])
    ensures !Accepts(w.objects[newData[5]].lastUpdatedTimestamp, newData[1]) ==>
              w.SendUpdate(newData, ip) == w
    ensures Accepts(w.objects[newData[5]].lastUpdatedTimestamp, newData[1]) ==>
              var n := w.SendUpdate(newData, ip).objects[newData[5]];
              && n.data == newData[..OBJ_PACK_LENGTH]
              && n.lastUpdatedTimestamp == newData[1]
              && n.lastUpdatedIP == ip
              && n.objectID == w.objects[newData[5]].objectID
  {
  }

  /** sendUpdate keeps the model consistent, and after an accepted update
      the id is on the dirty list exactly once. */
  lemma SendUpdateMarksDirtyOnce(w: World, newData: RecvBuffer, ip: int)
    requires w.Valid()
    ensures w.SendUpdate(newData, ip).Valid()
    ensures newData[5] in w.objects && Accepts(w.objects[newData[5]].lastUpdatedTimestamp, newData[1]) ==>
              Count(w.SendUpdate(newData, ip).updatedIds, newData[5]) == 1
  {
    var w' := w.SendUpdate(newData, ip);
    var id := newData[5] as int;
    if id in w.objects && Accepts(w.objects[id].lastUpdatedTimestamp, newData[1]) {
      assert id in w'.updatedIds;
      DistinctCount(w'.updatedIds, id);
    }
  }

  /** initializeGlobal is idempotent: once an id exists, later packets for
      it (whatever their payload and sender) change nothing. */
  lemma InitializeGlobalIdempotent(w: World, a: RecvBuffer, b: RecvBuffer, ipA: int, ipB: int,
                                   junkA: Payload, junkB: Payload)
    requires a[5] == b[5]
    ensures var once := w.InitializeGlobal(a, ipA, junkA);
            once.InitializeGlobal(b, ipB, junkB) == once
    ensures a[5] in w.objects ==> w.InitializeGlobal(a, ipA, junkA) == w
  {
  }

  /** initializeGlobal of a new id stores the packet with timestamp 0 under
      that id, keeps the model consistent and schedules nothing. */
  lemma InitializeGlobalCreates(w: World, newData: RecvBuffer, ip: int, junk: Payload)
    requires w.Valid() && newData[5] !in w.objects
    ensures var o := w.InitializeGlobal(newData, ip, junk).objects[newData[5]];
            && o.lastUpdatedTimestamp == 0
            && o.data == newData[..OBJ_PACK_LENGTH]
            && o.lastUpdatedIP == ip
            && o.objectID == newData[5]
            && o.timesUpdated == 1
    ensures w.InitializeGlobal(newData, ip, junk).Valid()
    ensures w.InitializeGlobal(newData, ip, junk).updatedIds == w.updatedIds
  {
  }

  /** initializeLocal allocates the current SOID, keeps the model
      consistent and leaves the new id on the dirty list exactly once; the
      value returned is only whether that id is non-zero. The stored entry
      is the blank object: it does not depend on the packet or its sender. */
  lemma InitializeLocalAllocates(w: World, newData: RecvBuffer, ip: int, junk: Payload)
    requires w.Valid()
    ensures var (w', r) := w.InitializeLocal(newData, ip, junk);
            && w'.Valid()
            && Count(w'.updatedIds, w.soid) == 1
            && r == (w.soid != 0)
            && w'.objects[w.soid] == Blank(w.soid, junk)
            && w'.soid > w.soid
  {
    var (w', r) := w.InitializeLocal(newData, ip, junk);
    DistinctCount(w'.updatedIds, w.soid);
  }

  /** The payload and sender of a 'j' packet never reach the model. */
  lemma InitializeLocalIgnoresPacket(w: World, a: RecvBuffer, b: RecvBuffer, ipA: int, ipB: int, junk: Payload)
    ensures w.InitializeLocal(a, ipA, junk) == w.InitializeLocal(b, ipB, junk)
  {
  }

  /** resetIdsToUpdate empties the dirty list, keeps the object map and
      keeps the model consistent. */
  lemma ResetKeepsValid(w: World)
    requires w.Valid()
    ensures w.ResetIdsToUpdate().Valid()
    ensures w.ResetIdsToUpdate().objects == w.objects && w.ResetIdsToUpdate().updatedIds == []
  {
  }

  /** One operation on the model, as the relay's two loops issue them. */
  datatype Op =
    | SendUpdateOp(newData: RecvBuffer, ip: int)
    | InitializeGlobalOp(newData: RecvBuffer, ip: int, junk: Payload)
    | InitializeLocalOp(newData: RecvBuffer, ip: int, junk: Payload)
    | ResetOp

  function Apply(w: World, op: Op): (w': World)
    ensures w'.soid >= w.soid
  {
    match op
    case SendUpdateOp(d, ip) => w.SendUpdate(d, ip)
    case InitializeGlobalOp(d, ip, junk) => w.InitializeGlobal(d, ip, junk)
    case InitializeLocalOp(d, ip, junk) => w.InitializeLocal(d, ip, junk).0
    case ResetOp => w.ResetIdsToUpdate()
  }

  /** The model after a sequence of operations. */
  function Run(w: World, ops: seq<Op>): (w': World)
  {
    if ops == [] then w else Apply(Run(w, ops[..|ops| - 1]), ops[|ops| - 1])
  }

  lemma ApplyKeepsValid(w: World, op: Op)
    requires w.Valid()
    ensures Apply(w, op).Valid()
  {
    match op
    case SendUpdateOp(d, ip) => SendUpdateMarksDirtyOnce(w, d, ip);
    case InitializeGlobalOp(d, ip, junk) =>
    case InitializeLocalOp(d, ip, junk) => InitializeLocalAllocates(w, d, ip, junk);
    case ResetOp =>
  }

  /** Every sequence of operations keeps the model consistent: the dirty
      list only names stored objects and never names one twice. */
  lemma {:induction false} RunKeepsValid(w: World, ops: seq<Op>)
    requires w.Valid()
    ensures Run(w, ops).Valid()
  {
    if ops != [] {
      RunKeepsValid(w, ops[..|ops| - 1]);
      ApplyKeepsValid(Run(w, ops[..|ops| - 1]), ops[|ops| - 1]);
    }
  }

  /** SOID never goes back. */
  lemma {:induction false} RunSoidMonotone(w: World, ops: seq<Op>)
    ensures Run(w, ops).soid >= w.soid
  {
    if ops != [] {
      RunSoidMonotone(w, ops[..|ops| - 1]);
    }
  }

  /** Ids handed out by initializeLocal strictly increase: whatever
      operations come between two calls, the second allocates a larger id
      than the first. */
  lemma LocalIdsIncrease(w: World, first: RecvBuffer, ip: int, junk: Payload, ops: seq<Op>,
                         second: RecvBuffer, ip2: int, junk2: Payload)
    ensures var w1 := w.InitializeLocal(first, ip, junk).0;
            var w2 := Run(w1, ops);
            && w.soid in w1.objects
            && w2.soid in w2.InitializeLocal(second, ip2, junk2).0.objects
            && w.soid < w2.soid
  {
    RunSoidMonotone(w.InitializeLocal(first, ip, junk).0, ops);
  }

  /** SOID and the ids of global objects come from different sources, so a
      local allocation can land on a global object's id and replace it with
      a blank entry: global object 2, created from a fresh model (SOID then
      2), is overwritten by the next 'j'. */
  lemma LocalIdCanOverwriteGlobal(g: RecvBuffer, l: RecvBuffer, ip: int, junk: Payload)
    requires g[5] == 2
    ensures var w1 := EmptyWorld().InitializeGlobal(g, ip, junk);
            var w2 := w1.InitializeLocal(l, ip, junk).0;
            && 2 in w1.objects && w1.objects[2].timesUpdated == 1
            && w2.objects[2] == Blank(2, junk) && w2.objects[2] != w1.objects[2]
  {
  }

  /** std::find over the dirty list: the first position holding `x`, or
      the length of the list when there is none. */
  method Find(ids: seq<int>, x: int) returns (i: nat)
    ensures i <= |ids|
    ensures i < |ids| ==> ids[i] == x
    ensures forall k | 0 <= k < i :: ids[k] != x
  {
    i := 0;
    while i < |ids| && ids[i] != x
      invariant i <= |ids|
      invariant forall k | 0 <= k < i :: ids[k] != x
    {
      i := i + 1;
    }
  }

  /** StateObject::update: copies the first OBJ_PACK_LENGTH bytes of the
      packet byte by byte, then records timestamp, sender and one more
      update; the object keeps its id. */
  method CopyUpdate(o: StateObject, timestamp: int, ip: int, newData: RecvBuffer) returns (r: StateObject)
    ensures r.data == newData[..OBJ_PACK_LENGTH]
    ensures r.lastUpdatedTimestamp == timestamp && r.lastUpdatedIP == ip
    ensures r.objectID == o.objectID && r.timesUpdated == o.timesUpdated + 1
  {
    var data := new byte[OBJ_PACK_LENGTH];
    for i := 0 to OBJ_PACK_LENGTH
      invariant data[..i] == newData[..i]
    {
      data[i] := newData[i];
    }
    assert data[..] == data[..OBJ_PACK_LENGTH];
    r := StateObject(timestamp, ip, o.objectID, data[..], o.timesUpdated + 1);
  }

  /** The Model class: its map and dirty list are changed in place. SOID is
      a file-scope variable in the source; only this class constructs
      StateObjects, so it lives here. */
  class Model {
    var stateObjects: map<int, StateObject>
    var updatedIds: seq<int>
    var soid: int

    function Abs(): World
      reads this
    {
      World(stateObjects, updatedIds, soid)
    }

    constructor ()
      ensures Abs() == EmptyWorld()
    {
      stateObjects := map[];
      updatedIds := [];
      soid := 0;
    }

    /** StateObject(): takes `SOID++` as its id. */
    method NewStateObject(junk: Payload) returns (o: StateObject)
      modifies this`soid
      ensures o == Blank(old(soid), junk)
      ensures soid == old(soid) + 1
    {
      o := Blank(soid, junk);
      soid := soid + 1;
    }

    method SendUpdate(newData: RecvBuffer, ip: int)
      modifies this
      ensures Abs() == old(Abs()).SendUpdate(newData, ip)
    {
      var timestamp := newData[1] as int;
      var id := newData[5] as int;
      if id !in stateObjects {
        return;
      }
      if stateObjects[id].lastUpdatedTimestamp <= timestamp
         || (stateObjects[id].lastUpdatedTimestamp > 250 && timestamp < 5)
      {
        var o := CopyUpdate(stateObjects[id], timestamp, ip, newData);
        stateObjects := stateObjects[id := o];
        var at := Find(updatedIds, stateObjects[id].objectID);
        if at == |updatedIds| {
          updatedIds := updatedIds + [stateObjects[id].objectID];
        }
      }
    }

    method InitializeGlobal(newData: RecvBuffer, ip: int, junk: Payload)
      modifies this
      ensures Abs() == old(Abs()).InitializeGlobal(newData, ip, junk)
    {
      var timestamp := 0;
      var id := newData[5] as int;
      if id in stateObjects {
        return;
      }
      var temporary := NewStateObject(junk);
      var inserted := NewStateObject(junk);  // built by operator[], then overwritten
      stateObjects := stateObjects[id := temporary];
      stateObjects := stateObjects[id := stateObjects[id].(objectID := id)];
      var o := CopyUpdate(stateObjects[id], timestamp, ip, newData);
      stateObjects := stateObjects[id := o];
    }

    method InitializeLocal(newData: RecvBuffer, ip: int, junk: Payload) returns (r: bool)
      modifies this
      ensures (Abs(), r) == old(Abs()).InitializeLocal(newData, ip, junk)
    {
      var timestamp := 0;
      var stateObject := NewStateObject(junk);
      var id := stateObject.objectID;
      if id !in stateObjects {
        var inserted := NewStateObject(junk);  // built by operator[], then overwritten
      }
      stateObjects := stateObjects[id := stateObject];
      var at := Find(updatedIds, stateObjects[id].objectID);
      if at == |updatedIds| {
        stateObject := CopyUpdate(stateObject, timestamp, ip, newData);  // the local copy only
      }
      at := Find(updatedIds, stateObjects[id].objectID);
      if at == |updatedIds| {
        updatedIds := updatedIds + [id];
      }
      r := id != 0;
    }

    method ResetIdsToUpdate()
      modifies this`updatedIds
      ensures Abs() == old(Abs()).ResetIdsToUpdate()
    {
      updatedIds := [];
    }
  }
}
