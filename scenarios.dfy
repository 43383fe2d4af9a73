/** Concrete runs of the server, from an empty state. */
module Scenarios {
  import opened Names
  import opened Rooms
  import opened Protocol

  /** While "Alice" waits, another client asking for "aLICE" is refused. */
  lemma NameCollidesIgnoringCase()
    ensures var s := Join(Init, "a1", "Alice", "room_1");
            s.queue == [Arrival("a1", "Alice")] && Join(s, "b1", "aLICE", "room_2") == s
  {
    var s := Join(Init, "a1", "Alice", "room_1");
    SameNameCharwise("Alice", "aLICE");
    assert SameName(s.queue[0].username, "aLICE");
  }

  /** Two players are paired, both ready up, the callback starts the race,
      "alice" reaches 100 first and wins; "bob" reaching 100 afterwards
      changes nothing. */
  lemma AliceBeatsBob()
    ensures
      var s1 := Join(Init, "a1", "alice", "room_1");
      var s2 := Join(s1, "b1", "bob", "room_1");
      var s3 := Toggle(s2, "a1", "room_1");
      var s4 := Toggle(s3, "b1", "room_1");
      var s5 := Fire(s4, 0);
      var s6 := Progress(s5, "a1", "room_1", 100.0);
      var s7 := Progress(s6, "b1", "room_1", 100.0);
      && s2.queue == [] && PhaseOf(s2.rooms["room_1"]) == Lobby
      && PhaseOf(s3.rooms["room_1"]) == Lobby
      && PhaseOf(s4.rooms["room_1"]) == Countdown && s4.timers == [Timer("room_1", true)]
      && PhaseOf(s5.rooms["room_1"]) == Racing && s5.timers == []
      && s6.rooms["room_1"].winner.Some? && s6.rooms["room_1"].winner.value == "a1"
      && s7 == s6
  {
    var s1 := Join(Init, "a1", "alice", "room_1");
    assert !SameName("alice", "bob") by { assert Lower("alice")[0] != Lower("bob")[0]; }
    var s2 := Join(s1, "b1", "bob", "room_1");
    assert s2.rooms["room_1"].players == [Arrival("a1", "alice"), Arrival("b1", "bob")];
    var s3 := Toggle(s2, "a1", "room_1");
    assert s3.rooms["room_1"].players[0].isReady && !s3.rooms["room_1"].players[1].isReady;
    var s4 := Toggle(s3, "b1", "room_1");
    assert s4.rooms["room_1"].players[0].isReady && s4.rooms["room_1"].players[1].isReady;
  }

  /** "bob" disconnects during the countdown: the room is gone, its callback
      no longer has a room to start, and a later `toggle_ready` from "alice"
      on the old id changes nothing. */
  lemma BobLeavesDuringCountdown()
    ensures
      var s4 := Toggle(Toggle(Join(Join(Init, "a1", "alice", "room_1"), "b1", "bob", "room_1"),
                              "a1", "room_1"), "b1", "room_1");
      var s5 := Drop(s4, "b1");
      && CountingDown(s4, "room_1")
      && "room_1" !in s5.rooms
      && s5.timers == [Timer("room_1", false)]
      && Fire(s5, 0) == s5.(timers := [])
      && Toggle(s5, "a1", "room_1") == s5
  {
    var s1 := Join(Init, "a1", "alice", "room_1");
    assert !SameName("alice", "bob") by { assert Lower("alice")[0] != Lower("bob")[0]; }
    var s2 := Join(s1, "b1", "bob", "room_1");
    var s3 := Toggle(s2, "a1", "room_1");
    var s4 := Toggle(s3, "b1", "room_1");
    assert s4.rooms["room_1"].players[1].id == "b1";
    assert RoomsWith(s4.rooms, "b1") == {"room_1"};
  }
}
