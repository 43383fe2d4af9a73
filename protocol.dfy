/** The server's whole in-memory state and one transition function per socket
    event. JavaScript runs each handler to completion before the next event,
    so every handler is one atomic step from a state to a state. */
module Protocol {
  import opened Rooms
  import opened Queue

  /** A countdown callback scheduled with `setTimeout`. The callback holds on
      to the room object it was created for; `live` says whether that object
      is still the one registered under `roomId` (a room that was deleted or
      replaced under the same key no longer is). */
  datatype Timer = Timer(roomId: RoomId, live: bool)

  /** `waitingPlayers`, `roomStates` and the callbacks not yet run. */
  datatype State = State(queue: seq<Player>, rooms: map<RoomId, Room>, timers: seq<Timer>)

  /** One inbound socket event, or the firing of a pending callback. */
  datatype Event =
    | JoinQueue(client: SocketId, username: string, newRoom: RoomId)
    | ToggleReady(client: SocketId, roomId: RoomId)
    | FireTimer(index: nat)
    | UpdateProgress(client: SocketId, roomId: RoomId, progress: real)
    | LeaveRoom(client: SocketId, roomId: RoomId)
    | Disconnect(client: SocketId)

  const Init: State := State([], map[], [])

  /** The record `join_queue` pushes for a new player. */
  function Arrival(client: SocketId, username: string): Player
  {
    Player(client, username, 0.0, false)
  }

  /** The callbacks after the rooms under `gone` were deleted or replaced. */
  function Detach(timers: seq<Timer>, gone: set<RoomId>): seq<Timer>
  {
    seq(|timers|, i requires 0 <= i < |timers| =>
      timers[i].(live := timers[i].live && timers[i].roomId !in gone))
  }

  /** `join_queue(username)`, with `newRoom` the id `room_${Date.now()}`
      would produce. */
  function Join(s: State, client: SocketId, username: string, newRoom: RoomId): State
  {
    if NameTaken(s.queue, username) then s
    else
      var queue := s.queue + [Arrival(client, username)];
      if |queue| >= 2 then
        State(queue[2..], s.rooms[newRoom := NewRoom(queue[0], queue[1])], Detach(s.timers, {newRoom}))
      else
        s.(queue := queue)
  }

  /** `toggle_ready({ roomID })` */
  function Toggle(s: State, client: SocketId, roomId: RoomId): State
  {
    if roomId !in s.rooms || s.rooms[roomId].countdownStarted then s
    else
      var room := s.rooms[roomId];
      var players := ToggleCaller(room.players, client);
      if AllReady(players) then
        s.(rooms := s.rooms[roomId := room.(players := players, countdownStarted := true)],
           timers := s.timers + [Timer(roomId, true)])
      else
        s.(rooms := s.rooms[roomId := room.(players := players)])
  }

  /** The `setTimeout` callback at position `index` of the pending ones runs. */
  function Fire(s: State, index: nat): State
  {
    if index >= |s.timers| then s
    else
      var t := s.timers[index];
      var rest := s.timers[..index] + s.timers[index + 1..];
      if t.live && t.roomId in s.rooms then
        State(s.queue, s.rooms[t.roomId := s.rooms[t.roomId].(gameStarted := true)], rest)
      else
        s.(timers := rest)
  }

  /** `update_progress({ roomID, progress })` */
  function Progress(s: State, client: SocketId, roomId: RoomId, progress: real): State
  {
    if roomId !in s.rooms || !s.rooms[roomId].gameStarted then s
    else if progress >= 100.0 && s.rooms[roomId].winner.None? then
      s.(rooms := s.rooms[roomId := s.rooms[roomId].(winner := Some(client))])
    else s
  }

  /** `leave_room({ roomID })` */
  function Leave(s: State, roomId: RoomId): State
  {
    s.(rooms := s.rooms - {roomId}, timers := Detach(s.timers, {roomId}))
  }

  /** The keys of the rooms that hold a record of `client`. */
  function RoomsWith(rooms: map<RoomId, Room>, client: SocketId): set<RoomId>
  {
    set k | k in rooms && HasPlayer(rooms[k].players, client)
  }

  /** `disconnect` */
  function Drop(s: State, client: SocketId): State
  {
    var gone := RoomsWith(s.rooms, client);
    State(WithoutClient(s.queue, client), s.rooms - gone, Detach(s.timers, gone))
  }

  function Step(s: State, e: Event): State
  {
    match e
    case JoinQueue(c, name, k) => Join(s, c, name, k)
    case ToggleReady(c, k) => Toggle(s, c, k)
    case FireTimer(i) => Fire(s, i)
    case UpdateProgress(c, k, p) => Progress(s, c, k, p)
    case LeaveRoom(_, k) => Leave(s, k)
    case Disconnect(c) => Drop(s, c)
  }

  // ---------------------------------------------------------------------------
  // The invariant that holds between events
  // ---------------------------------------------------------------------------

  /** A room is well formed: two records; the flags go up in order; the room
      has entered countdown exactly when every record is ready. */
  predicate RoomOk(r: Room)
  {
    && |r.players| == 2
    && (r.gameStarted ==> r.countdownStarted)
    && (r.winner.Some? ==> r.gameStarted)
    && (r.countdownStarted <==> AllReady(r.players))
  }

  /** The room under `k` is counting down and its race has not begun. */
  predicate CountingDown(s: State, k: RoomId)
  {
    k in s.rooms && s.rooms[k].countdownStarted && !s.rooms[k].gameStarted
  }

  ghost predicate Inv(s: State)
  {
    && |s.queue| <= 1
    && (forall i :: 0 <= i < |s.queue| ==> !s.queue[i].isReady)
    && (forall k :: k in s.rooms ==> RoomOk(s.rooms[k]))
    // a live callback belongs to a room that is counting down ...
    && (forall i :: 0 <= i < |s.timers| && s.timers[i].live ==> CountingDown(s, s.timers[i].roomId))
    // ... no room has two of them ...
    && (forall i, j :: 0 <= i < j < |s.timers| && s.timers[i].live && s.timers[j].live ==>
          s.timers[i].roomId != s.timers[j].roomId)
    // ... and every room counting down has one
    && (forall k :: CountingDown(s, k) ==> exists i :: 0 <= i < |s.timers| && s.timers[i] == Timer(k, true))
  }

  lemma InitInv()
    ensures Inv(Init)
  {
  }

  // ---------------------------------------------------------------------------
  // What each handler does
  // ---------------------------------------------------------------------------

  /** A name that is queued already, in any letter case, is refused and
      nothing changes; any other name changes the state. */
  lemma JoinRefusesTakenName(s: State, client: SocketId, username: string, newRoom: RoomId)
    ensures Join(s, client, username, newRoom) == s <==> NameTaken(s.queue, username)
  {
    if !NameTaken(s.queue, username) {
      var r := Join(s, client, username, newRoom);
      assert |r.queue| != |s.queue|;
    }
  }

  /** A join that finds the queue empty only appends the player. */
  lemma JoinWaits(s: State, client: SocketId, username: string, newRoom: RoomId)
    requires !NameTaken(s.queue, username) && s.queue == []
    ensures Join(s, client, username, newRoom) == s.(queue := [Arrival(client, username)])
  {
  }

  /** A join that finds someone waiting pairs the two longest-waiting players,
      oldest first: the new room's two records followed by the queue that
      remains are exactly the old queue with the newcomer appended. The room
      starts in the lobby with nobody ready, and no other room changes. */
  lemma JoinPairsFifo(s: State, client: SocketId, username: string, newRoom: RoomId)
    requires !NameTaken(s.queue, username) && s.queue != []
    requires forall i :: 0 <= i < |s.queue| ==> !s.queue[i].isReady
    ensures var r := Join(s, client, username, newRoom);
            && newRoom in r.rooms
            && r.rooms[newRoom].players + r.queue == s.queue + [Arrival(client, username)]
            && |r.rooms[newRoom].players| == 2
            && !r.rooms[newRoom].players[0].isReady && !r.rooms[newRoom].players[1].isReady
            && PhaseOf(r.rooms[newRoom]) == Lobby
            && r.rooms[newRoom].winner == None
            && r.rooms.Keys == s.rooms.Keys + {newRoom}
            && (forall k :: k in s.rooms && k != newRoom ==> r.rooms[k] == s.rooms[k])
  {
    var q := s.queue + [Arrival(client, username)];
    var r := Join(s, client, username, newRoom);
    assert q[0].(isReady := false) == q[0];
    assert q[1].(isReady := false) == q[1];
    assert r.rooms[newRoom].players == q[..2];
    assert q[..2] + q[2..] == q;
  }

  /** `toggle_ready` on a missing room, or on one whose countdown has begun,
      changes nothing. Otherwise only that room changes: the caller's first
      record flips `isReady`, every other record and flag stays, and the
      countdown starts, with one callback scheduled, exactly when every record
      is now ready. A caller without a record changes no record. */
  lemma ToggleEffect(s: State, client: SocketId, roomId: RoomId)
    ensures roomId !in s.rooms || s.rooms[roomId].countdownStarted ==> Toggle(s, client, roomId) == s
    ensures roomId in s.rooms && !s.rooms[roomId].countdownStarted ==>
            var r := Toggle(s, client, roomId);
            var before := s.rooms[roomId];
            && r.queue == s.queue
            && r.rooms.Keys == s.rooms.Keys
            && (forall k :: k in s.rooms && k != roomId ==> r.rooms[k] == s.rooms[k])
            && |r.rooms[roomId].players| == |before.players|
            && (forall i :: 0 <= i < |before.players| ==>
                  r.rooms[roomId].players[i] == before.players[i].(isReady := r.rooms[roomId].players[i].isReady)
                  && (r.rooms[roomId].players[i].isReady != before.players[i].isReady <==>
                      IsFirstWith(before.players, client, i)))
            && (!HasPlayer(before.players, client) ==> r.rooms[roomId].players == before.players)
            && r.rooms[roomId].gameStarted == before.gameStarted
            && r.rooms[roomId].winner == before.winner
            && (r.rooms[roomId].countdownStarted <==> AllReady(r.rooms[roomId].players))
            && r.timers == s.timers + (if r.rooms[roomId].countdownStarted then [Timer(roomId, true)] else [])
  {
    if roomId in s.rooms && !s.rooms[roomId].countdownStarted && !HasPlayer(s.rooms[roomId].players, client) {
      ToggleStranger(s.rooms[roomId].players, client);
    }
  }

  /** Running a pending callback removes it; the room it captured starts its
      race if it is still registered, and nothing else changes. A callback
      whose room was deleted or replaced changes no room. */
  lemma FireEffect(s: State, index: nat)
    requires index < |s.timers|
    ensures var r := Fire(s, index);
            var t := s.timers[index];
            && r.queue == s.queue
            && r.timers == s.timers[..index] + s.timers[index + 1..]
            && r.rooms.Keys == s.rooms.Keys
            && (forall k :: k in s.rooms && (k != t.roomId || !t.live) ==> r.rooms[k] == s.rooms[k])
            && (t.live && t.roomId in s.rooms ==> r.rooms[t.roomId] == s.rooms[t.roomId].(gameStarted := true))
  {
  }

  /** `update_progress` does nothing unless the room exists and its race has
      begun; the first report of at least 100 records the caller as winner,
      and no later report changes a recorded winner. Progress itself is not
      stored, and the caller need not be one of the room's players. */
  lemma ProgressEffect(s: State, client: SocketId, roomId: RoomId, progress: real)
    ensures roomId !in s.rooms || !s.rooms[roomId].gameStarted ==> Progress(s, client, roomId, progress) == s
    ensures roomId in s.rooms && s.rooms[roomId].winner.Some? ==> Progress(s, client, roomId, progress) == s
    ensures progress < 100.0 ==> Progress(s, client, roomId, progress) == s
    ensures roomId in s.rooms && s.rooms[roomId].gameStarted && s.rooms[roomId].winner.None? && progress >= 100.0 ==>
            var r := Progress(s, client, roomId, progress);
            && r.queue == s.queue && r.timers == s.timers
            && r.rooms.Keys == s.rooms.Keys
            && (forall k :: k in s.rooms && k != roomId ==> r.rooms[k] == s.rooms[k])
            && r.rooms[roomId] == s.rooms[roomId].(winner := Some(client))
  {
  }

  /** `leave_room` deletes exactly the room named, whether or not it exists,
      and leaves the queue and every other room as they were. */
  lemma LeaveEffect(s: State, roomId: RoomId)
    ensures var r := Leave(s, roomId);
            && r.queue == s.queue
            && roomId !in r.rooms
            && (forall k :: k in r.rooms <==> k in s.rooms && k != roomId)
            && (forall k :: k in r.rooms ==> r.rooms[k] == s.rooms[k])
            && |r.timers| == |s.timers|
            && (forall i :: 0 <= i < |s.timers| && s.timers[i].roomId != roomId ==> r.timers[i] == s.timers[i])
            && (forall i :: 0 <= i < |s.timers| && s.timers[i].roomId == roomId ==>
                  r.timers[i] == s.timers[i].(live := false))
  {
  }

  /** `disconnect` drops every queue entry of the client and every room that
      holds a record of it, and nothing else. */
  lemma DropEffect(s: State, client: SocketId)
    ensures var r := Drop(s, client);
            && (forall p :: p in r.queue <==> p in s.queue && p.id != client)
            && (forall n :: 0 <= n <= |s.queue| ==>
                  r.queue == WithoutClient(s.queue[..n], client) + WithoutClient(s.queue[n..], client))
            && (forall k :: k in r.rooms <==> k in s.rooms && !HasPlayer(s.rooms[k].players, client))
            && (forall k :: k in r.rooms ==> r.rooms[k] == s.rooms[k])
            && (forall k :: k in r.rooms ==> !HasPlayer(r.rooms[k].players, client))
            && |r.timers| == |s.timers|
            && (forall i :: 0 <= i < |s.timers| && s.timers[i].roomId !in RoomsWith(s.rooms, client) ==>
                  r.timers[i] == s.timers[i])
            && (forall i :: 0 <= i < |s.timers| && s.timers[i].roomId in RoomsWith(s.rooms, client) ==>
                  r.timers[i] == s.timers[i].(live := false))
  {
    forall n | 0 <= n <= |s.queue|
      ensures WithoutClient(s.queue, client) == WithoutClient(s.queue[..n], client) + WithoutClient(s.queue[n..], client)
    {
      assert s.queue == s.queue[..n] + s.queue[n..];
      WithoutClientAppend(s.queue[..n], s.queue[n..], client);
    }
  }

  /** Leaving a room a second time, or disconnecting a second time, changes
      nothing more. */
  lemma TeardownIdempotent(s: State, client: SocketId, roomId: RoomId)
    ensures Leave(Leave(s, roomId), roomId) == Leave(s, roomId)
    ensures Drop(Drop(s, client), client) == Drop(s, client)
  {
    WithoutClientIdempotent(s.queue, client);
    var once := Drop(s, client);
    assert RoomsWith(once.rooms, client) == {};
    assert Detach(once.timers, {}) == once.timers;
    assert once.rooms - {} == once.rooms;
  }

  // ---------------------------------------------------------------------------
  // Every handler keeps the invariant
  // ---------------------------------------------------------------------------

  lemma DetachKeepsOthers(timers: seq<Timer>, gone: set<RoomId>, k: RoomId, i: nat)
    requires i < |timers| && timers[i] == Timer(k, true) && k !in gone
    ensures i < |Detach(timers, gone)| && Detach(timers, gone)[i] == Timer(k, true)
  {
  }

  lemma JoinKeepsInv(s: State, client: SocketId, username: string, newRoom: RoomId)
    requires Inv(s)
    ensures Inv(Join(s, client, username, newRoom))
  {
    var r := Join(s, client, username, newRoom);
    if !NameTaken(s.queue, username) && |s.queue| + 1 >= 2 {
      var q := s.queue + [Arrival(client, username)];
      assert !AllReady(r.rooms[newRoom].players) by {
        assert !r.rooms[newRoom].players[0].isReady;
      }
      forall k | CountingDown(r, k)
        ensures exists i :: 0 <= i < |r.timers| && r.timers[i] == Timer(k, true)
      {
        assert k != newRoom && CountingDown(s, k);
        var i :| 0 <= i < |s.timers| && s.timers[i] == Timer(k, true);
        DetachKeepsOthers(s.timers, {newRoom}, k, i);
      }
    } else {
      forall k | CountingDown(r, k)
        ensures exists i :: 0 <= i < |r.timers| && r.timers[i] == Timer(k, true)
      {
        assert CountingDown(s, k);
      }
    }
  }

  lemma ToggleKeepsInv(s: State, client: SocketId, roomId: RoomId)
    requires Inv(s)
    ensures Inv(Toggle(s, client, roomId))
  {
    var r := Toggle(s, client, roomId);
    if roomId in s.rooms && !s.rooms[roomId].countdownStarted {
      assert !CountingDown(s, roomId);
      forall k | CountingDown(r, k)
        ensures exists i :: 0 <= i < |r.timers| && r.timers[i] == Timer(k, true)
      {
        if k == roomId {
          assert r.timers[|s.timers|] == Timer(k, true);
        } else {
          assert CountingDown(s, k);
          var i :| 0 <= i < |s.timers| && s.timers[i] == Timer(k, true);
          assert r.timers[i] == Timer(k, true);
        }
      }
    }
  }

  lemma FireKeepsInv(s: State, index: nat)
    requires Inv(s)
    ensures Inv(Fire(s, index))
  {
    if index < |s.timers| {
      var r := Fire(s, index);
      var t := s.timers[index];
      var rest := s.timers[..index] + s.timers[index + 1..];
      assert |rest| == |s.timers| - 1;
      assert forall i :: 0 <= i < |rest| ==> rest[i] == s.timers[if i < index then i else i + 1];
      forall k | CountingDown(r, k)
        ensures exists i :: 0 <= i < |rest| && rest[i] == Timer(k, true)
      {
        assert CountingDown(s, k);
        var i :| 0 <= i < |s.timers| && s.timers[i] == Timer(k, true);
        assert i != index;
        if i < index {
          assert rest[i] == Timer(k, true);
        } else {
          assert rest[i - 1] == Timer(k, true);
        }
      }
    }
  }

  lemma ProgressKeepsInv(s: State, client: SocketId, roomId: RoomId, progress: real)
    requires Inv(s)
    ensures Inv(Progress(s, client, roomId, progress))
  {
    var r := Progress(s, client, roomId, progress);
    forall k | CountingDown(r, k)
      ensures exists i :: 0 <= i < |r.timers| && r.timers[i] == Timer(k, true)
    {
      assert CountingDown(s, k);
    }
  }

  lemma LeaveKeepsInv(s: State, roomId: RoomId)
    requires Inv(s)
    ensures Inv(Leave(s, roomId))
  {
    var r := Leave(s, roomId);
    forall k | CountingDown(r, k)
      ensures exists i :: 0 <= i < |r.timers| && r.timers[i] == Timer(k, true)
    {
      assert CountingDown(s, k);
      var i :| 0 <= i < |s.timers| && s.timers[i] == Timer(k, true);
      DetachKeepsOthers(s.timers, {roomId}, k, i);
    }
  }

  lemma DropKeepsInv(s: State, client: SocketId)
    requires Inv(s)
    ensures Inv(Drop(s, client))
  {
    var r := Drop(s, client);
    var gone := RoomsWith(s.rooms, client);
    forall i | 0 <= i < |r.queue| ensures !r.queue[i].isReady {
      assert r.queue[i] in s.queue;
    }
    forall k | CountingDown(r, k)
      ensures exists i :: 0 <= i < |r.timers| && r.timers[i] == Timer(k, true)
    {
      assert CountingDown(s, k) && k !in gone;
      var i :| 0 <= i < |s.timers| && s.timers[i] == Timer(k, true);
      DetachKeepsOthers(s.timers, gone, k, i);
    }
  }

  /** Every event keeps the invariant. In particular, between events the queue
      never holds more than one player, so no two queued players share a name. */
  lemma StepKeepsInv(s: State, e: Event)
    requires Inv(s)
    ensures Inv(Step(s, e))
  {
    match e
    case JoinQueue(c, name, k) => JoinKeepsInv(s, c, name, k);
    case ToggleReady(c, k) => ToggleKeepsInv(s, c, k);
    case FireTimer(i) => FireKeepsInv(s, i);
    case UpdateProgress(c, k, p) => ProgressKeepsInv(s, c, k, p);
    case LeaveRoom(_, k) => LeaveKeepsInv(s, k);
    case Disconnect(c) => DropKeepsInv(s, c);
  }
}
