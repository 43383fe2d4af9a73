/** The socket.io server object: `waitingPlayers` and `roomStates` as fields,
    one method per event handler, each updating the fields in place and
    returning the events it emits. Each method is proved to perform exactly
    the transition of the matching function in `Protocol`, and to keep the
    invariant `Protocol.Inv`. */
module Server {
  import opened Rooms
  import opened Queue
  import opened Protocol

  const GameText: string := "The quick brown fox jumps over the lazy dog and runs away from the hunter."
  const NameTakenMessage: string := "Name already in queue."

  /** An outbound event. `QueueError` goes to the caller alone, `OpponentLeft`
      to the room's other members, all the others to everyone in the room. */
  datatype Emit =
    | QueueError(to: SocketId, message: string)
    | MatchFound(room: RoomId, players: seq<Player>)
    | LobbyUpdate(room: RoomId, players: seq<Player>)
    | StartCountdown(room: RoomId)
    | StartGame(room: RoomId, text: string)
    | PlayerProgress(room: RoomId, id: SocketId, progress: real)
    | GameFinished(room: RoomId, winnerId: SocketId)
    | OpponentLeft(room: RoomId)

  class MatchServer {
    var waitingPlayers: seq<Player>
    var roomStates: map<RoomId, Room>
    /** The countdown callbacks scheduled and not yet run, oldest first. */
    var timers: seq<Timer>

    function Snapshot(): State
      reads this
    {
      State(waitingPlayers, roomStates, timers)
    }

    ghost predicate Valid()
      reads this
    {
      Inv(Snapshot())
    }

    constructor ()
      ensures Valid() && Snapshot() == Init
    {
      waitingPlayers := [];
      roomStates := map[];
      timers := [];
      InitInv();
    }

    method JoinQueue(client: SocketId, username: string, newRoom: RoomId) returns (out: seq<Emit>)
      requires Valid()
      modifies this
      ensures Valid()
      ensures Snapshot() == Join(old(Snapshot()), client, username, newRoom)
      ensures NameTaken(old(waitingPlayers), username) ==> out == [QueueError(client, NameTakenMessage)]
      ensures !NameTaken(old(waitingPlayers), username) && old(waitingPlayers) == [] ==> out == []
      ensures !NameTaken(old(waitingPlayers), username) && old(waitingPlayers) != [] ==>
                newRoom in roomStates && out == [MatchFound(newRoom, roomStates[newRoom].players)]
    {
      JoinKeepsInv(Snapshot(), client, username, newRoom);
      if NameTaken(waitingPlayers, username) {
        return [QueueError(client, NameTakenMessage)];
      }
      var player := Arrival(client, username);
      waitingPlayers := waitingPlayers + [player];
      out := [];
      if |waitingPlayers| >= 2 {
        ghost var pushed := waitingPlayers;
        var p1 := waitingPlayers[0];
        waitingPlayers := waitingPlayers[1..];
        var p2 := waitingPlayers[0];
        waitingPlayers := waitingPlayers[1..];
        assert waitingPlayers == pushed[2..];
        roomStates := roomStates[newRoom := NewRoom(p1, p2)];
        // the callbacks of a room replaced under the same key lose their room
        timers := Detach(timers, {newRoom});
        out := [MatchFound(newRoom, roomStates[newRoom].players)];
      }
    }

    method ToggleReady(client: SocketId, roomId: RoomId) returns (out: seq<Emit>)
      requires Valid()
      modifies this
      ensures Valid()
      ensures Snapshot() == Toggle(old(Snapshot()), client, roomId)
      ensures roomId !in old(roomStates) || old(roomStates)[roomId].countdownStarted ==> out == []
      ensures roomId in old(roomStates) && !old(roomStates)[roomId].countdownStarted ==>
                roomId in roomStates &&
                out == [LobbyUpdate(roomId, roomStates[roomId].players)]
                       + (if roomStates[roomId].countdownStarted then [StartCountdown(roomId)] else [])
    {
      ghost var s0 := Snapshot();
      if roomId !in roomStates || roomStates[roomId].countdownStarted {
        return [];
      }
      var room := roomStates[roomId];
      var found := FindPlayer(room.players, client);
      if found.Some? {
        var i := found.value;
        room := room.(players := room.players[i := room.players[i].(isReady := !room.players[i].isReady)]);
      }
      assert room.players == ToggleCaller(s0.rooms[roomId].players, client);
      roomStates := roomStates[roomId := room];
      out := [LobbyUpdate(roomId, room.players)];
      if AllReady(room.players) && !room.countdownStarted {
        room := room.(countdownStarted := true);
        roomStates := roomStates[roomId := room];
        out := out + [StartCountdown(roomId)];
        timers := timers + [Timer(roomId, true)];
      }
      assert Snapshot() == Toggle(s0, client, roomId);
      ToggleKeepsInv(s0, client, roomId);
    }

    /** The countdown callback scheduled at position `index` runs. */
    method FireCountdownTimer(index: nat) returns (out: seq<Emit>)
      requires Valid()
      modifies this
      ensures Valid()
      ensures Snapshot() == Fire(old(Snapshot()), index)
      ensures out == if index < |old(timers)| then [StartGame(old(timers)[index].roomId, GameText)] else []
    {
      FireKeepsInv(Snapshot(), index);
      if index >= |timers| {
        return [];
      }
      var t := timers[index];
      timers := timers[..index] + timers[index + 1..];
      if t.live && t.roomId in roomStates {
        roomStates := roomStates[t.roomId := roomStates[t.roomId].(gameStarted := true)];
      }
      out := [StartGame(t.roomId, GameText)];
    }

    method UpdateProgress(client: SocketId, roomId: RoomId, progress: real) returns (out: seq<Emit>)
      requires Valid()
      modifies this
      ensures Valid()
      ensures Snapshot() == Progress(old(Snapshot()), client, roomId, progress)
      ensures roomId !in old(roomStates) || !old(roomStates)[roomId].gameStarted ==> out == []
      ensures roomId in old(roomStates) && old(roomStates)[roomId].gameStarted ==>
                out == [PlayerProgress(roomId, client, progress)]
                       + (if progress >= 100.0 && old(roomStates)[roomId].winner.None?
                          then [GameFinished(roomId, client)] else [])
    {
      ProgressKeepsInv(Snapshot(), client, roomId, progress);
      if roomId !in roomStates || !roomStates[roomId].gameStarted {
        return [];
      }
      out := [PlayerProgress(roomId, client, progress)];
      if progress >= 100.0 && roomStates[roomId].winner.None? {
        roomStates := roomStates[roomId := roomStates[roomId].(winner := Some(client))];
        out := out + [GameFinished(roomId, client)];
      }
    }

    method LeaveRoom(client: SocketId, roomId: RoomId) returns (out: seq<Emit>)
      requires Valid()
      modifies this
      ensures Valid()
      ensures Snapshot() == Leave(old(Snapshot()), roomId)
      ensures out == [OpponentLeft(roomId)]
    {
      LeaveKeepsInv(Snapshot(), roomId);
      out := [OpponentLeft(roomId)];
      roomStates := roomStates - {roomId};
      timers := Detach(timers, {roomId});
    }

    /** The `for...in` over `roomStates`, deleting as it goes; the order in
        which the keys are visited is left open. */
    method Disconnect(client: SocketId) returns (out: seq<Emit>)
      requires Valid()
      modifies this
      ensures Valid()
      ensures Snapshot() == Drop(old(Snapshot()), client)
      ensures forall e :: e in out ==> e.OpponentLeft? && e.room in RoomsWith(old(roomStates), client)
      ensures forall k :: k in RoomsWith(old(roomStates), client) ==> OpponentLeft(k) in out
      ensures forall i, j :: 0 <= i < j < |out| ==> out[i] != out[j]
    {
      DropKeepsInv(Snapshot(), client);
      waitingPlayers := WithoutClient(waitingPlayers, client);
      ghost var before := roomStates;
      var unvisited := roomStates.Keys;
      var gone: set<RoomId> := {};
      out := [];
      while unvisited != {}
        invariant waitingPlayers == WithoutClient(old(waitingPlayers), client) && timers == old(timers)
        invariant unvisited <= before.Keys
        invariant gone == set k | k in before && k !in unvisited && HasPlayer(before[k].players, client)
        invariant roomStates == before - gone
        invariant forall e :: e in out ==> e.OpponentLeft? && e.room in gone
        invariant forall k :: k in gone ==> OpponentLeft(k) in out
        invariant forall i, j :: 0 <= i < j < |out| ==> out[i] != out[j]
        decreases unvisited
      {
        var k :| k in unvisited;
        if HasPlayer(roomStates[k].players, client) {
          out := out + [OpponentLeft(k)];
          roomStates := roomStates - {k};
          gone := gone + {k};
        }
        unvisited := unvisited - {k};
      }
      assert gone == RoomsWith(before, client);
      // the callbacks of deleted rooms lose their room
      timers := Detach(timers, gone);
    }
  }
}
