/** A race room: the two player records copied out of the queue, the
    ready-check on them, and the three flags of the room object. */
module Rooms {

  datatype Option<T> = None | Some(value: T)

  /** A socket.io connection id. socket.io never hands out an empty id, so the
      JavaScript test `!room.winner` is the same as "no winner recorded". */
  type SocketId = s: string | s != [] witness "?"

  /** The key of a room in the registry, as clients send it back. */
  type RoomId = string

  /** A player record: `{ id, username, progress, isReady }`. */
  datatype Player = Player(id: SocketId, username: string, progress: real, isReady: bool)

  /** A room object: `{ players, gameStarted, countdownStarted, winner }`. */
  datatype Room = Room(players: seq<Player>, gameStarted: bool, countdownStarted: bool, winner: Option<SocketId>)

  /** The stage a room is in, read off its three flags. */
  datatype Phase = Lobby | Countdown | Racing | Finished

  /** The room built for two paired players: copies of both records with
      `isReady` cleared, and every flag down. */
  function NewRoom(p1: Player, p2: Player): Room
  {
    Room([p1.(isReady := false), p2.(isReady := false)], false, false, None)
  }

  /** `players.every(p => p.isReady)` */
  predicate AllReady(players: seq<Player>)
  {
    forall i :: 0 <= i < |players| ==> players[i].isReady
  }

  /** `players.some(p => p.id === id)` */
  predicate HasPlayer(players: seq<Player>, id: SocketId)
  {
    exists i :: 0 <= i < |players| && players[i].id == id
  }

  /** Record `i` is the first one that belongs to `id`. */
  predicate IsFirstWith(players: seq<Player>, id: SocketId, i: nat)
    requires i < |players|
  {
    players[i].id == id && forall j :: 0 <= j < i ==> players[j].id != id
  }

  /** The index `players.find(p => p.id === id)` lands on, if any. */
  function FindPlayer(players: seq<Player>, id: SocketId): (r: Option<nat>)
    ensures r.Some? ==> r.value < |players| && IsFirstWith(players, id, r.value)
    ensures r.None? ==> !HasPlayer(players, id)
  {
    if players == [] then None
    else if players[0].id == id then Some(0)
    else match FindPlayer(players[1..], id)
      case None => None
      case Some(i) => Some(i + 1)
  }

  /** `player.isReady = !player.isReady` on the record `find` returns. */
  function ToggleCaller(players: seq<Player>, id: SocketId): (r: seq<Player>)
    ensures |r| == |players|
    ensures forall i :: 0 <= i < |players| ==> r[i] == players[i].(isReady := r[i].isReady)
    ensures forall i :: 0 <= i < |players| ==>
              (r[i].isReady != players[i].isReady <==> IsFirstWith(players, id, i))
  {
    match FindPlayer(players, id)
    case None => players
    case Some(i) => players[i := players[i].(isReady := !players[i].isReady)]
  }

  /** A caller without a record in the room changes no record. */
  lemma ToggleStranger(players: seq<Player>, id: SocketId)
    requires !HasPlayer(players, id)
    ensures ToggleCaller(players, id) == players
  {
    var r := ToggleCaller(players, id);
    forall i | 0 <= i < |players| ensures r[i] == players[i] {
      assert !IsFirstWith(players, id, i);
    }
  }

  function PhaseOf(r: Room): Phase
  {
    if r.winner.Some? then Finished
    else if r.gameStarted then Racing
    else if r.countdownStarted then Countdown
    else Lobby
  }

  function Rank(p: Phase): nat
  {
    match p
    case Lobby => 0
    case Countdown => 1
    case Racing => 2
    case Finished => 3
  }
}
