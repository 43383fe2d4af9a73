/** The matchmaking queue `waitingPlayers`: the duplicate-name test of
    `join_queue` and the filter of `disconnect`. */
module Queue {
  import opened Names
  import opened Rooms

  /** `waitingPlayers.some(p => p.username.toLowerCase() === username.toLowerCase())` */
  function NameTaken(queue: seq<Player>, name: string): (taken: bool)
    ensures taken <==> exists i :: 0 <= i < |queue| && SameName(queue[i].username, name)
  {
    if queue == [] then false
    else SameName(queue[0].username, name) || NameTaken(queue[1..], name)
  }

  /** `waitingPlayers.filter(p => p.id !== id)` */
  function WithoutClient(queue: seq<Player>, id: SocketId): (rest: seq<Player>)
    ensures |rest| <= |queue|
    ensures forall p :: p in rest <==> p in queue && p.id != id
  {
    if queue == [] then []
    else if queue[0].id != id then [queue[0]] + WithoutClient(queue[1..], id)
    else WithoutClient(queue[1..], id)
  }

  /** Filtering distributes over concatenation: the kept entries stay in
      queue order, duplicates included. */
  lemma {:induction false} WithoutClientAppend(a: seq<Player>, b: seq<Player>, id: SocketId)
    ensures WithoutClient(a + b, id) == WithoutClient(a, id) + WithoutClient(b, id)
  {
    if a != [] {
      assert (a + b)[1..] == a[1..] + b;
      WithoutClientAppend(a[1..], b, id);
    } else {
      assert a + b == b;
    }
  }

  /** Filtering keeps the entries of other clients in their queue order, so
      that filtering again changes nothing. */
  lemma {:induction false} WithoutClientIdempotent(queue: seq<Player>, id: SocketId)
    ensures WithoutClient(WithoutClient(queue, id), id) == WithoutClient(queue, id)
  {
    if queue != [] {
      WithoutClientIdempotent(queue[1..], id);
      if queue[0].id != id {
        assert ([queue[0]] + WithoutClient(queue[1..], id))[1..] == WithoutClient(queue[1..], id);
      }
    }
  }

  /** A queue in which the client has no entry is left as it is. */
  lemma {:induction false} WithoutAbsentClient(queue: seq<Player>, id: SocketId)
    requires forall i :: 0 <= i < |queue| ==> queue[i].id != id
    ensures WithoutClient(queue, id) == queue
  {
    if queue != [] {
      WithoutAbsentClient(queue[1..], id);
    }
  }
}
