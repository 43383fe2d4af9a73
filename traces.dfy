/** Properties of whole event sequences: the server as an arbitrary
    sequence of atomic handler runs. */
module Traces {
  import opened Names
  import opened Rooms
  import opened Queue
  import opened Protocol

  /** The state after the events, in order. */
  function Run(s: State, events: seq<Event>): State
    decreases |events|
  {
    if events == [] then s else Run(Step(s, events[0]), events[1..])
  }

  lemma {:induction false} RunKeepsInv(s: State, events: seq<Event>)
    requires Inv(s)
    ensures Inv(Run(s, events))
    decreases |events|
  {
    if events != [] {
      StepKeepsInv(s, events[0]);
      RunKeepsInv(Step(s, events[0]), events[1..]);
    }
  }

  /** Whatever the events, the server started empty satisfies the invariant
      afterwards: at most one player waits, every room holds two records and
      its flags are ordered, and each room counting down has exactly one live
      callback. */
  lemma Reachable(events: seq<Event>)
    ensures Inv(Run(Init, events))
  {
    InitInv();
    RunKeepsInv(Init, events);
  }

  /** The queue between events never holds two players with the same name. */
  lemma QueueNamesDistinct(events: seq<Event>)
    ensures var q := Run(Init, events).queue;
            forall i, j :: 0 <= i < j < |q| ==> !SameName(q[i].username, q[j].username)
  {
    Reachable(events);
  }

  /** Event `e` stores a brand-new room object under `k`, replacing any
      room that was there. */
  predicate Replaces(s: State, e: Event, k: RoomId)
  {
    e.JoinQueue? && e.newRoom == k && !NameTaken(s.queue, e.username) && |s.queue| >= 1
  }

  /** The room under `k` is still the same room object after `e`. */
  predicate Keeps(s: State, e: Event, k: RoomId)
  {
    k in Step(s, e).rooms && !Replaces(s, e, k)
  }

  /** The room under `k` stays the same object through all the events. */
  predicate KeepsAll(s: State, events: seq<Event>, k: RoomId)
    decreases |events|
  {
    events == [] || (Keeps(s, events[0], k) && KeepsAll(Step(s, events[0]), events[1..], k))
  }

  /** `b` is a later version of room `a`: no flag has gone down, a recorded
      winner is kept, the records are frozen once the countdown has begun, and
      the records always belong to the same players in the same slots. */
  predicate Advances(a: Room, b: Room)
  {
    && (a.countdownStarted ==> b.countdownStarted && b.players == a.players)
    && (a.gameStarted ==> b.gameStarted)
    && (a.winner.Some? ==> b.winner == a.winner)
    && |b.players| == |a.players|
    && (forall i :: 0 <= i < |a.players| ==>
          b.players[i].id == a.players[i].id && b.players[i].username == a.players[i].username)
  }

  /** A later version of a room is never in an earlier phase. */
  lemma AdvancesPhase(a: Room, b: Room)
    requires Advances(a, b)
    ensures Rank(PhaseOf(a)) <= Rank(PhaseOf(b))
  {
  }

  lemma StepAdvances(s: State, e: Event, k: RoomId)
    requires k in s.rooms && Keeps(s, e, k)
    ensures Advances(s.rooms[k], Step(s, e).rooms[k])
  {
  }

  /** As long as a room is neither deleted nor replaced, it only moves
      forward: countdown once begun is never reset, a started race stays
      started, the first winner sticks, and its phase never goes back. */
  lemma {:induction false} RunAdvances(s: State, events: seq<Event>, k: RoomId)
    requires k in s.rooms && KeepsAll(s, events, k)
    ensures k in Run(s, events).rooms
    ensures Advances(s.rooms[k], Run(s, events).rooms[k])
    ensures Rank(PhaseOf(s.rooms[k])) <= Rank(PhaseOf(Run(s, events).rooms[k]))
    decreases |events|
  {
    if events != [] {
      var next := Step(s, events[0]);
      StepAdvances(s, events[0], k);
      RunAdvances(next, events[1..], k);
      assert Run(s, events) == Run(next, events[1..]);
    }
    AdvancesPhase(s.rooms[k], Run(s, events).rooms[k]);
  }

  /** How many of the events move the room under `k` into countdown. */
  function CountdownEntries(s: State, events: seq<Event>, k: RoomId): nat
    decreases |events|
  {
    if events == [] then 0
    else
      var next := Step(s, events[0]);
      (if k in s.rooms && k in next.rooms && !s.rooms[k].countdownStarted && next.rooms[k].countdownStarted
       then 1 else 0)
      + CountdownEntries(next, events[1..], k)
  }

  /** A room enters countdown at most once, however the players' toggles
      interleave, and never again once it has. */
  lemma {:induction false} CountdownAtMostOnce(s: State, events: seq<Event>, k: RoomId)
    requires k in s.rooms && KeepsAll(s, events, k)
    ensures CountdownEntries(s, events, k) <= if s.rooms[k].countdownStarted then 0 else 1
    decreases |events|
  {
    if events != [] {
      var next := Step(s, events[0]);
      StepAdvances(s, events[0], k);
      CountdownAtMostOnce(next, events[1..], k);
    }
  }

  /** Countdown begins only in a `toggle_ready` on that room after which
      every record is ready, and that step schedules one callback for it. */
  lemma CountdownOnlyWhenAllReady(s: State, e: Event, k: RoomId)
    requires k in s.rooms && Keeps(s, e, k)
    requires !s.rooms[k].countdownStarted && Step(s, e).rooms[k].countdownStarted
    ensures e.ToggleReady? && e.roomId == k
    ensures AllReady(Step(s, e).rooms[k].players)
    ensures Step(s, e).timers == s.timers + [Timer(k, true)]
  {
  }

  /** A race begins only when the live callback scheduled for that room runs,
      and in a reachable state that room was counting down. */
  lemma RaceOnlyFromCallback(s: State, e: Event, k: RoomId)
    requires k in s.rooms && Keeps(s, e, k)
    requires !s.rooms[k].gameStarted && Step(s, e).rooms[k].gameStarted
    ensures e.FireTimer? && e.index < |s.timers| && s.timers[e.index] == Timer(k, true)
    ensures Inv(s) ==> s.rooms[k].countdownStarted
  {
    if Inv(s) {
      assert s.timers[e.index].live;
    }
  }

  /** A winner is recorded only by an `update_progress` on that room, during
      its race, reporting at least 100, and it is the reporting client. */
  lemma WinnerOnlyAtFinish(s: State, e: Event, k: RoomId)
    requires k in s.rooms && Keeps(s, e, k)
    requires s.rooms[k].winner.None? && Step(s, e).rooms[k].winner.Some?
    ensures e.UpdateProgress? && e.roomId == k && e.progress >= 100.0
    ensures s.rooms[k].gameStarted
    ensures Step(s, e).rooms[k].winner == Some(e.client)
  {
  }

  /** A client may queue twice under two names and be paired with itself.
      `find` then always picks the first record, so the second is never
      ready and such a room never counts down. */
  lemma SelfPairedNeverStarts(s: State, e: Event, k: RoomId)
    requires Inv(s) && k in s.rooms && Keeps(s, e, k)
    requires s.rooms[k].players[0].id == s.rooms[k].players[1].id
    requires !s.rooms[k].players[1].isReady
    ensures !Step(s, e).rooms[k].players[1].isReady
    ensures Step(s, e).rooms[k].players[0].id == Step(s, e).rooms[k].players[1].id
    ensures !Step(s, e).rooms[k].countdownStarted
  {
    var a := s.rooms[k];
    assert !AllReady(a.players);
    assert !a.countdownStarted;
    if e.ToggleReady? && e.roomId == k {
      var ps := ToggleCaller(a.players, e.client);
      assert !IsFirstWith(a.players, e.client, 1);
      assert !ps[1].isReady;
    }
  }

  /** The same over any events that keep the room. */
  lemma {:induction false} SelfPairedRunNeverStarts(s: State, events: seq<Event>, k: RoomId)
    requires Inv(s) && k in s.rooms && KeepsAll(s, events, k)
    requires s.rooms[k].players[0].id == s.rooms[k].players[1].id
    requires !s.rooms[k].players[1].isReady
    ensures k in Run(s, events).rooms && |Run(s, events).rooms[k].players| == 2
    ensures !Run(s, events).rooms[k].players[1].isReady
    ensures !Run(s, events).rooms[k].countdownStarted
    decreases |events|
  {
    if events == [] {
      assert !AllReady(s.rooms[k].players);
    } else {
      var next := Step(s, events[0]);
      SelfPairedNeverStarts(s, events[0], k);
      StepKeepsInv(s, events[0]);
      SelfPairedRunNeverStarts(next, events[1..], k);
      assert Run(s, events) == Run(next, events[1..]);
    }
  }

  /** A client that joins twice under two different names, with nobody else
      waiting, is paired with itself; its second record starts unready, so
      from then on the room never counts down. */
  lemma {:induction false} SelfPairing(s: State, client: SocketId, first: string, second: string, k: RoomId, events: seq<Event>)
    requires Inv(s) && s.queue == [] && !SameName(first, second)
    requires var p := Join(Join(s, client, first, k), client, second, k); KeepsAll(p, events, k)
    ensures var p := Join(Join(s, client, first, k), client, second, k);
            && k in p.rooms
            && p.rooms[k].players[0].id == client && p.rooms[k].players[1].id == client
            && k in Run(p, events).rooms && !Run(p, events).rooms[k].countdownStarted
  {
    var s1 := Join(s, client, first, k);
    JoinKeepsInv(s, client, first, k);
    assert s1.queue == [Arrival(client, first)];
    var p := Join(s1, client, second, k);
    JoinKeepsInv(s1, client, second, k);
    assert p.rooms[k].players == [Arrival(client, first), Arrival(client, second)];
    SelfPairedRunNeverStarts(p, events, k);
  }
}
