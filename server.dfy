/**
 * The replication server (com.mygdx.nio.GameServer): it accepts up to a
 * fixed number of players, names them "Player0", "Player1", ..., keeps one
 * outgoing queue of serialized events per player, applies the moves and
 * attacks the players send, and drains a queue into one framed write.
 *
 * Sockets are not modelled: a write is recorded in `sent`, a read arrives as
 * an `Inbound` value, and Jackson's reading and writing of events are the
 * `Decoder` and `Encoder` parameters.
 */
module Server {
  import opened Outcomes
  import opened Settings
  import opened Text
  import opened Events
  import opened Entities
  import opened GameWorld
  import opened Simulation
  import opened Controller

  /** What selecting a readable key delivers: the end of the stream, or the text read. */
  datatype Inbound = Eof | Data(text: string)

  /** The id handleAccept gives the n-th accepted connection: "Player" + n. */
  function PlayerId(n: nat): (id: string)
    ensures |id| > 6 && id[..6] == "Player"
  {
    "Player" + NatToString(n)
  }

  /** Different accept counts give different ids, so no player inherits another's queue. */
  lemma PlayerIdInjective(a: nat, b: nat)
    ensures PlayerId(a) == PlayerId(b) <==> a == b
  {
    if PlayerId(a) == PlayerId(b) {
      assert NatToString(a) == PlayerId(a)[6..];
      assert NatToString(b) == PlayerId(b)[6..];
      NatToStringValue(a);
      NatToStringValue(b);
    }
  }

  /** The ids handed out once n connections were accepted. */
  ghost function Issued(n: nat): (ids: set<string>)
    ensures forall k :: 0 <= k < n ==> PlayerId(k) in ids
  {
    set k | 0 <= k < n :: PlayerId(k)
  }

  /** One more accept issues exactly the next id, which was never issued before. */
  lemma IssuedNext(n: nat)
    ensures Issued(n + 1) == Issued(n) + {PlayerId(n)}
    ensures PlayerId(n) !in Issued(n)
  {
    if PlayerId(n) in Issued(n) {
      var k :| 0 <= k < n && PlayerId(k) == PlayerId(n);
      PlayerIdInjective(k, n);
    }
  }

  /** Every queue with the same messages added at its end; the set of queues unchanged. */
  function Appended(buffers: map<string, seq<string>>, msgs: seq<string>): (b: map<string, seq<string>>)
    ensures b.Keys == buffers.Keys
    ensures forall k :: k in b ==> b[k] == buffers[k] + msgs
  {
    map k | k in buffers :: buffers[k] + msgs
  }

  /** Adding two batches one after the other adds them joined. */
  lemma AppendedTwice(buffers: map<string, seq<string>>, xs: seq<string>, ys: seq<string>)
    ensures Appended(Appended(buffers, xs), ys) == Appended(buffers, xs + ys)
  {
    var l, r := Appended(Appended(buffers, xs), ys), Appended(buffers, xs + ys);
    forall k | k in l
      ensures l[k] == r[k]
    {
      assert buffers[k] + xs + ys == buffers[k] + (xs + ys);
    }
  }

  /** The text of each delivered event, in delivery order. */
  function Encodings(ds: seq<Delivery>, encode: Encoder): (msgs: seq<string>)
    ensures |msgs| == |ds|
    ensures forall i :: 0 <= i < |ds| ==> msgs[i] == encode(ds[i].event)
  {
    seq(|ds|, i requires 0 <= i < |ds| => encode(ds[i].event))
  }

  /** n deliveries of one event are n copies of its text. */
  lemma {:induction false} EncodingsRepeat(d: Delivery, n: nat, encode: Encoder)
    ensures Encodings(Repeat([d], n), encode) == Repeat([encode(d.event)], n)
  {
    if n > 0 {
      EncodingsRepeat(d, n - 1, encode);
      assert Repeat([d], n) == Repeat([d], n - 1) + [d];
      assert Encodings(Repeat([d], n), encode) == Encodings(Repeat([d], n - 1), encode) + [encode(d.event)];
    }
  }

  /** Every entry of n copies of one delivery is that delivery. */
  lemma {:induction false} RepeatOne(d: Delivery, n: nat)
    ensures forall i :: 0 <= i < |Repeat([d], n)| ==> Repeat([d], n)[i] == d
  {
    if n > 0 {
      RepeatOne(d, n - 1);
    }
  }

  /** Adding no messages leaves every queue as it was. */
  lemma AppendedNone(buffers: map<string, seq<string>>)
    ensures Appended(buffers, []) == buffers
  {
    var b := Appended(buffers, []);
    forall k | k in b
      ensures b[k] == buffers[k]
    {
      assert buffers[k] + [] == buffers[k];
    }
  }

  /** A queue holding one more message drains to the old frame, that message and a delimiter. */
  lemma AppendedFrame(buffers: map<string, seq<string>>, msg: string, id: string)
    requires id in buffers
    ensures Frame(Appended(buffers, [msg])[id]) == Frame(buffers[id]) + msg + [DELIMITER]
  {
    FrameSnoc(buffers[id], msg);
  }

  /** The "start" writes: one to every connected id, each id once, in some order. */
  predicate StartsAll(starts: seq<(string, string)>, ids: set<string>)
  {
    && (forall i :: 0 <= i < |starts| ==> starts[i].1 == "start" && starts[i].0 in ids)
    && (forall i, j :: 0 <= i < j < |starts| ==> starts[i].0 != starts[j].0)
    && (forall k :: k in ids ==> (k, "start") in starts)
  }

  class GameServer {
    /** Config.MAX_CONNECTIONS. */
    const maxConnections: nat
    /** The GameController's state, built by initGame. */
    const world: World
    /** The server as an observer of that state. */
    const me: ObserverRef
    var clientId: nat
    var activeConnections: nat
    /** The ids with a live SocketChannel in clientConnections. */
    var connections: set<string>
    /** The outgoing queue of each id that was ever accepted. */
    var buffers: map<string, seq<string>>
    /** Every write to a socket, in order: the id and the text. */
    var sent: seq<(string, string)>
    var enemiesStarted: bool
    var bulletsStarted: bool

    /**
     * The two counters move together up to the limit, the queues are those
     * of the ids issued so far, only those can be connected, and the server
     * is the state's one observer.
     */
    ghost predicate Valid()
      reads this, world
    {
      && activeConnections == clientId <= maxConnections
      && buffers.Keys == Issued(clientId)
      && connections <= buffers.Keys
      && world.observers == [me]
    }

    /** The GameServer constructor: no connections yet, and the server observes the game. */
    constructor (maxConnections: nat, world: World, me: ObserverRef)
      requires world.observers == []
      modifies world`observers
      ensures Valid()
      ensures this.maxConnections == maxConnections && this.world == world && this.me == me
      ensures clientId == 0 && connections == {} && buffers == map[] && sent == []
      ensures !enemiesStarted && !bulletsStarted
    {
      this.maxConnections, this.world, this.me := maxConnections, world, me;
      clientId, activeConnections := 0, 0;
      connections, buffers, sent := {}, map[], [];
      enemiesStarted, bulletsStarted := false, false;
      new;
      world.AddObserver(me);
      assert Issued(0) == {};
    }

    /** sendMessage: a write to the id's channel, or nothing when it has none. */
    method SendMessage(id: string, message: string)
      modifies this`sent
      ensures sent == old(sent) + (if id in connections then [(id, message)] else [])
    {
      if id in connections {
        sent := sent + [(id, message)];
      }
    }

    /** handleAccept: both counters go up and the next id gets a channel and an empty queue. */
    method HandleAccept() returns (id: string)
      requires Valid() && activeConnections < maxConnections
      modifies this`activeConnections, this`clientId, this`connections, this`buffers
      ensures Valid()
      ensures id == PlayerId(old(clientId)) && id !in old(buffers)
      ensures activeConnections == old(activeConnections) + 1 && clientId == old(clientId) + 1
      ensures connections == old(connections) + {id} && buffers == old(buffers)[id := []]
    {
      IssuedNext(clientId);
      activeConnections := activeConnections + 1;
      id := PlayerId(clientId);
      clientId := clientId + 1;
      connections := connections + {id};
      buffers := buffers[id := []];
    }

    /** The loop over clientConnections that sends "start" to every connected player. */
    method SendStarts() returns (ghost starts: seq<(string, string)>)
      modifies this`sent
      ensures sent == old(sent) + starts && StartsAll(starts, connections)
    {
      starts := [];
      var pending := connections;
      while pending != {}
        invariant pending <= connections
        invariant sent == old(sent) + starts
        invariant forall i :: 0 <= i < |starts| ==> starts[i].1 == "start" && starts[i].0 in connections - pending
        invariant forall i, j :: 0 <= i < j < |starts| ==> starts[i].0 != starts[j].0
        invariant forall k :: k in connections - pending ==> (k, "start") in starts
        decreases pending
      {
        var k :| k in pending;
        SendMessage(k, "start");
        starts := starts + [(k, "start")];
        pending := pending - {k};
      }
    }

    /**
     * sendInitMessage: the state and the new player's index to that player;
     * once the last place is taken, "start" to every connected player and the
     * enemies and the bullets set going.
     */
    method SendInitMessage(id: string, state: string) returns (ghost starts: seq<(string, string)>)
      requires Valid() && clientId >= 1
      modifies this`sent, this`enemiesStarted, this`bulletsStarted
      ensures Valid()
      ensures sent == old(sent) + (if id in connections then [(id, InitMessage(state, clientId - 1))] else []) + starts
      ensures activeConnections == maxConnections ==> StartsAll(starts, connections) && enemiesStarted && bulletsStarted
      ensures activeConnections != maxConnections ==>
                starts == [] && enemiesStarted == old(enemiesStarted) && bulletsStarted == old(bulletsStarted)
    {
      SendMessage(id, InitMessage(state, clientId - 1));
      starts := [];
      if activeConnections == maxConnections {
        starts := SendStarts();
        enemiesStarted, bulletsStarted := true, true;
      }
    }

    /**
     * The accept branch of the run loop: a connection is taken only below the
     * limit, gets the next id and the init message carrying its index.
     */
    method OnAcceptable(state: string) returns (id: Option<string>, ghost starts: seq<(string, string)>)
      requires Valid()
      modifies this`activeConnections, this`clientId, this`connections, this`buffers
      modifies this`sent, this`enemiesStarted, this`bulletsStarted
      ensures Valid()
      ensures old(activeConnections) >= maxConnections ==>
                && id.None? && starts == []
                && clientId == old(clientId) && connections == old(connections) && buffers == old(buffers)
                && sent == old(sent) && enemiesStarted == old(enemiesStarted) && bulletsStarted == old(bulletsStarted)
      ensures old(activeConnections) < maxConnections ==>
                && id == Some(PlayerId(old(clientId))) && id.value !in old(buffers)
                && clientId == old(clientId) + 1
                && connections == old(connections) + {id.value} && buffers == old(buffers)[id.value := []]
                && sent == old(sent) + [(id.value, InitMessage(state, old(clientId)))] + starts
                && (activeConnections == maxConnections ==>
                      enemiesStarted && bulletsStarted && StartsAll(starts, connections))
                && (activeConnections != maxConnections ==>
                      starts == [] && enemiesStarted == old(enemiesStarted) && bulletsStarted == old(bulletsStarted))
    {
      starts := [];
      if activeConnections < maxConnections {
        var i := HandleAccept();
        starts := SendInitMessage(i, state);
        id := Some(i);
      } else {
        id := None;
      }
    }

    /**
     * handleEvent for the three event classes: the event's text at the end of
     * every queue, connected or not; a bare GameEvent is unsupported.
     */
    method HandleEvent(e: Event, encode: Encoder) returns (r: Result<()>)
      requires Valid()
      modifies this`buffers
      ensures Valid()
      ensures e.GameEvent? ==> r == Err(UnsupportedOperation) && buffers == old(buffers)
      ensures !e.GameEvent? ==> r == Ok(()) && buffers == Appended(old(buffers), [encode(e)])
    {
      if e.GameEvent? {
        return Err(UnsupportedOperation);
      }
      var s := encode(e);
      ghost var start := buffers;
      var pending := buffers.Keys;
      while pending != {}
        invariant pending <= start.Keys && buffers.Keys == start.Keys
        invariant forall k :: k in buffers ==> buffers[k] == if k in pending then start[k] else start[k] + [s]
        decreases pending
      {
        var k :| k in pending;
        buffers := buffers[k := buffers[k] + [s]];
        pending := pending - {k};
      }
      r := Ok(());
    }

    /** The observer calls the game makes on the server, one after the other. */
    method ApplyDeliveries(ds: seq<Delivery>, encode: Encoder)
      requires Valid()
      requires forall i :: 0 <= i < |ds| ==> !ds[i].event.GameEvent?
      modifies this`buffers
      ensures Valid()
      ensures buffers == Appended(old(buffers), Encodings(ds, encode))
    {
      var i := 0;
      AppendedNone(buffers);
      assert Encodings(ds[..0], encode) == [];
      while i < |ds|
        invariant 0 <= i <= |ds| && Valid()
        invariant buffers == Appended(old(buffers), Encodings(ds[..i], encode))
      {
        ghost var b := buffers;
        var r := HandleEvent(ds[i].event, encode);
        AppendedTwice(old(buffers), Encodings(ds[..i], encode), [encode(ds[i].event)]);
        assert Encodings(ds[..i + 1], encode) == Encodings(ds[..i], encode) + [encode(ds[i].event)];
        i := i + 1;
      }
      assert ds[..i] == ds;
    }

    /** handleWrite: the id's queue emptied in FIFO order, each message followed by the delimiter, in one write. */
    method HandleWrite(id: string) returns (output: string)
      requires Valid() && id in buffers
      modifies this`buffers, this`sent
      ensures Valid()
      ensures output == Frame(old(buffers)[id])
      ensures buffers == old(buffers)[id := []]
      ensures sent == old(sent) + (if id in connections then [(id, output)] else [])
    {
      ghost var queued := buffers[id];
      var s := "";
      ghost var k := 0;
      while buffers[id] != []
        invariant id in buffers && buffers.Keys == old(buffers).Keys && Valid()
        invariant 0 <= k <= |queued| && buffers == old(buffers)[id := queued[k..]]
        invariant s == Frame(queued[..k]) && sent == old(sent)
        decreases |buffers[id]|
      {
        var m := buffers[id][0];
        buffers := buffers[id := buffers[id][1..]];
        FrameSnoc(queued[..k], m);
        assert queued[..k + 1] == queued[..k] + [m];
        s := s + m + [DELIMITER];
        k := k + 1;
      }
      assert queued[..k] == queued;
      output := s;
      SendMessage(id, output);
    }

    /**
     * handleRead of a HERO_MOVE: the server's grid-checked move of the heroes
     * with the event's id; every step a hero takes puts the move's text at the
     * end of every queue.
     */
    method OnHeroMove(e: Event, encode: Encoder) returns (ghost moves: nat)
      requires Valid() && world.Valid() && e.CharacterMove? && e.kind == HERO_MOVE
      requires forall k :: 0 <= k < |world.heroes| ==> OnCorner(world.heroes[k])
      modifies this`buffers, (set c | c in world.heroes), world.grid, world.grid.matrix
      ensures Valid() && world.Valid()
      ensures moves <= |WithId(world.heroes, e.id)|
      ensures Marched(world.heroes, old(Snaps(world.heroes)), old(world.grid.Contents()), world.grid.Contents(), |world.heroes|,
                      e.id, e.directionX * CELL_SIZE, e.directionY * CELL_SIZE, world.grid.rows, moves)
      ensures MovedFrom(world.heroes, old(Snaps(world.heroes)), e.id, e.directionX, e.directionY, world.grid.rows)
      ensures buffers == Appended(old(buffers), Repeat([encode(CharacterMove(e.directionX, e.directionY, e.id, HERO_MOVE))], moves))
    {
      var r;
      r, moves := ServerMove(world, e);
      QueueMoves(CharacterMove(e.directionX, e.directionY, e.id, HERO_MOVE), r.value, moves, encode);
    }

    /** The server, the game's only observer, hears of a move `moves` times: each time its JSON goes to the end of every queue. */
    method QueueMoves(ev: Event, ds: seq<Delivery>, ghost moves: nat, encode: Encoder)
      requires Valid() && ev.CharacterMove? && ds == Repeat(Deliveries(world.observers, ev), moves)
      modifies this`buffers
      ensures Valid()
      ensures buffers == Appended(old(buffers), Repeat([encode(ev)], moves))
    {
      var d := Delivery(me, OnCharacterMove, ev);
      assert world.observers == [me];
      assert |Deliveries(world.observers, ev)| == 1;
      assert HandlerFor(ev) == OnCharacterMove;
      assert world.observers[0] == me;
      assert Deliveries(world.observers, ev)[0] == d;
      assert Deliveries(world.observers, ev) == [d];
      EncodingsRepeat(d, moves, encode);
      RepeatOne(d, moves);
      ApplyDeliveries(ds, encode);
    }

    /** handleRead of a HERO_ATTACK: each hero with the event's id fires at the point; nothing is broadcast. */
    method OnHeroAttack(e: Event, aim: Aim)
      requires Valid() && world.Valid() && e.HeroAttack?
      modifies world`bullets
      ensures Valid() && world.Valid()
      ensures Fired(world.bullets, |old(world.bullets)|, WithId(world.heroes, e.id), e.x, e.y, aim)
      ensures world.bullets[..|old(world.bullets)|] == old(world.bullets)
    {
      var fired := ServerHeroAttack(world, e, aim);
    }

    /**
     * handleRead of the text read: a HERO_MOVE moves heroes and is broadcast,
     * a HERO_ATTACK fires bullets and is not, and any other type is unknown
     * and changes nothing.
     */
    method OnData(text: string, decode: Decoder, encode: Encoder, aim: Aim) returns (r: Result<()>, ghost moves: nat)
      requires Valid() && world.Valid()
      requires forall k :: 0 <= k < |world.heroes| ==> OnCorner(world.heroes[k])
      modifies this`buffers, world`bullets, (set c | c in world.heroes), world.grid, world.grid.matrix
      ensures Valid() && world.Valid()
      ensures decode(text).None? || decode(text).value.kind !in {HERO_MOVE, HERO_ATTACK} ==>
                && r == Err(UnknownEventType) && buffers == old(buffers)
                && world.bullets == old(world.bullets) && unchanged(set c | c in world.heroes)
      ensures decode(text).Some? && decode(text).value.kind == HERO_MOVE ==>
                var e := decode(text).value;
                && r == Ok(()) && world.bullets == old(world.bullets)
                && moves <= |WithId(world.heroes, e.id)|
                && Marched(world.heroes, old(Snaps(world.heroes)), old(world.grid.Contents()), world.grid.Contents(),
                           |world.heroes|, e.id, e.directionX * CELL_SIZE, e.directionY * CELL_SIZE, world.grid.rows, moves)
                && MovedFrom(world.heroes, old(Snaps(world.heroes)), e.id, e.directionX, e.directionY, world.grid.rows)
                && buffers == Appended(old(buffers), Repeat([encode(CharacterMove(e.directionX, e.directionY, e.id, HERO_MOVE))], moves))
      ensures decode(text).Some? && decode(text).value.kind == HERO_ATTACK ==>
                var e := decode(text).value;
                && r == Ok(()) && buffers == old(buffers) && unchanged(set c | c in world.heroes)
                && Fired(world.bullets, |old(world.bullets)|, WithId(world.heroes, e.id), e.x, e.y, aim)
                && world.bullets[..|old(world.bullets)|] == old(world.bullets)
    {
      moves := 0;
      var ev := decode(text);
      if ev.None? {
        r := Err(UnknownEventType);
      } else if ev.value.kind == HERO_MOVE {
        moves := OnHeroMove(ev.value, encode);
        r := Ok(());
      } else if ev.value.kind == HERO_ATTACK {
        OnHeroAttack(ev.value, aim);
        r := Ok(());
      } else {
        r := Err(UnknownEventType);
      }
    }

    /** handleRead: the end of the stream drops the connection alone (the queue and the counter stay). */
    method HandleRead(id: string, input: Inbound, decode: Decoder, encode: Encoder, aim: Aim)
      returns (r: Result<()>, ghost moves: nat)
      requires Valid() && world.Valid()
      requires forall k :: 0 <= k < |world.heroes| ==> OnCorner(world.heroes[k])
      modifies this`connections, this`buffers, world`bullets, (set c | c in world.heroes), world.grid, world.grid.matrix
      ensures Valid() && world.Valid()
      ensures input.Eof? ==>
                && r == Ok(()) && connections == old(connections) - {id} && buffers == old(buffers)
                && world.bullets == old(world.bullets) && unchanged(set c | c in world.heroes)
      ensures input.Data? ==> connections == old(connections)
      ensures input.Data? ==>
                (r.Ok? <==> decode(input.text).Some? && decode(input.text).value.kind in {HERO_MOVE, HERO_ATTACK})
      ensures input.Data? && r.Err? ==>
                r.error == UnknownEventType && buffers == old(buffers) && world.bullets == old(world.bullets)
    {
      moves := 0;
      match input
      case Eof =>
        connections := connections - {id};
        r := Ok(());
      case Data(text) =>
        r, moves := OnData(text, decode, encode, aim);
    }
  }

  /**
   * Broadcast and drain together: a client whose queue is drained after an
   * event was published reads, after splitting, exactly its queued messages
   * followed by that event's text, provided no message holds the delimiter
   * or is blank.
   */
  lemma BroadcastReachesReader(buffers: map<string, seq<string>>, msg: string, id: string, pad: string)
    requires id in buffers
    requires forall i :: 0 <= i < |buffers[id]| ==> DELIMITER !in buffers[id][i] && !IsBlank(buffers[id][i])
    requires DELIMITER !in msg && !IsBlank(msg) && IsBlank(pad)
    ensures Messages(Frame(Appended(buffers, [msg])[id]) + pad) == buffers[id] + [msg]
  {
    var q := Appended(buffers, [msg])[id];
    assert q == buffers[id] + [msg];
    forall i | 0 <= i < |q|
      ensures DELIMITER !in q[i] && !IsBlank(q[i])
    {
      if i == |buffers[id]| {
        assert q[i] == msg;
      } else {
        assert q[i] == buffers[id][i];
      }
    }
    FramingRoundTrip(q, pad);
  }
}
