/**
 * The replication client (com.mygdx.nio.GameClient): it picks its hero from
 * the init message, then applies every event the server relays, and turns
 * key presses and touches into HERO_MOVE and HERO_ATTACK events under a
 * rate limit.
 *
 * Sockets are not modelled: a read arrives as the chunk of text it yields,
 * a send is the event returned, the clock is a parameter, and Jackson's
 * reading of events is the `Decoder` parameter.
 */
module Client {
  import opened Outcomes
  import opened Text
  import opened Settings
  import opened Events
  import opened Entities
  import opened GameWorld
  import opened Controller

  // ---------------------------------------------------------------- the init message

  /**
   * initGame: the state text before the delimiter becomes the game state
   * (`heroesOf` is the hero list Jackson reads from it) and the number after
   * it picks the client's hero from that list.
   */
  function SelectHero<T>(chunk: string, heroesOf: string -> seq<T>): (r: Result<T>)
    ensures ParseInit(chunk).Err? ==> r == Err(ParseInit(chunk).error)
    ensures r.Ok? <==>
              && ParseInit(chunk).Ok?
              && 0 <= ParseInit(chunk).value.1 < |heroesOf(ParseInit(chunk).value.0)|
    ensures r.Ok? ==> r.value in heroesOf(ParseInit(chunk).value.0)
    ensures ParseInit(chunk).Ok? && r.Err? ==> r.error == IndexOutOfBounds
  {
    match ParseInit(chunk)
    case Err(f) => Err(f)
    case Ok((state, n)) =>
      var heroes := heroesOf(state);
      if 0 <= n < |heroes| then Ok(heroes[n]) else Err(IndexOutOfBounds)
  }

  /**
   * The server's init message, followed by any blank padding of the read
   * buffer, gives the client the hero at the index the server sent.
   */
  lemma SelectHeroRoundTrip<T>(state: string, index: nat, pad: string, heroesOf: string -> seq<T>)
    requires DELIMITER !in state && IsBlank(pad)
    requires index < |heroesOf(state)| && index <= INT_MAX
    ensures SelectHero(InitMessage(state, index) + pad, heroesOf) == Ok(heroesOf(state)[index])
  {
    InitRoundTrip(state, index, pad);
  }

  // ---------------------------------------------------------------- relayed events

  /** Why handleMassage stops at a message, if it does: an unknown type, or a HERO_ATTACK the client cannot handle. */
  function Stop(ev: Option<WireEvent>): (f: Option<Failure>)
    ensures f.None? <==> ev.Some? && !ev.value.HeroAttack?
  {
    match ev
    case None => Some(UnknownEventType)
    case Some(e) => if e.HeroAttack? then Some(UnsupportedOperation) else None
  }

  /** Where handleMassage stops in a sequence of messages: the first that fails, or the end. */
  function FirstStop(msgs: seq<string>, decode: Decoder): (i: nat)
    ensures i <= |msgs|
    ensures forall j :: 0 <= j < i ==> Stop(decode(msgs[j])).None?
    ensures i < |msgs| ==> Stop(decode(msgs[i])).Some?
  {
    if msgs == [] then 0
    else if Stop(decode(msgs[0])).Some? then 0
    else 1 + FirstStop(msgs[1..], decode)
  }

  /** The first stop is the only index before which nothing fails and at which something does (or the end). */
  lemma FirstStopUnique(msgs: seq<string>, decode: Decoder, k: nat)
    requires k <= |msgs|
    requires forall j :: 0 <= j < k ==> Stop(decode(msgs[j])).None?
    requires k < |msgs| ==> Stop(decode(msgs[k])).Some?
    ensures FirstStop(msgs, decode) == k
  {
  }

  /** The CHARACTER_ATTACK events among the messages, in order: each adds one bullet. */
  function AttackEvents(msgs: seq<string>, decode: Decoder): (es: seq<Event>)
    ensures |es| <= |msgs|
    ensures forall j :: 0 <= j < |es| ==> es[j].CharacterAttack?
  {
    if msgs == [] then []
    else
      var last := decode(msgs[|msgs| - 1]);
      AttackEvents(msgs[..|msgs| - 1], decode) + (if last.Some? && last.value.CharacterAttack? then [last.value] else [])
  }

  /** One more message adds its event to the attacks exactly when it is a CHARACTER_ATTACK. */
  lemma AttacksSnoc(msgs: seq<string>, m: string, decode: Decoder)
    ensures AttackEvents(msgs + [m], decode) ==
              AttackEvents(msgs, decode) + (if decode(m).Some? && decode(m).value.CharacterAttack? then [decode(m).value] else [])
  {
    assert (msgs + [m])[..|msgs|] == msgs;
  }

  /** The outcome of handleMassage on a chunk: the exception of the message it stopped at, if any. */
  function Outcome(msgs: seq<string>, decode: Decoder): Result<()>
  {
    var i := FirstStop(msgs, decode);
    if i == |msgs| then Ok(()) else Err(Stop(decode(msgs[i])).value)
  }

  /** An all-attack chunk runs to its end and adds one bullet per message, the j-th from the j-th message. */
  lemma {:induction false} AttacksOfAttackChunk(msgs: seq<string>, decode: Decoder)
    requires forall j :: 0 <= j < |msgs| ==> decode(msgs[j]).Some? && decode(msgs[j]).value.CharacterAttack?
    ensures |AttackEvents(msgs, decode)| == |msgs|
    ensures forall j :: 0 <= j < |msgs| ==> AttackEvents(msgs, decode)[j] == decode(msgs[j]).value
    ensures Outcome(msgs, decode) == Ok(())
  {
    if msgs != [] {
      AttacksOfAttackChunk(msgs[..|msgs| - 1], decode);
    }
    FirstStopUnique(msgs, decode, |msgs|);
  }

  /** Every field of each character but its position is as in its snapshot. */
  ghost predicate StatsKept(cs: seq<Character>, before: seq<Snapshot>)
    reads set c | c in cs
  {
    && |cs| == |before|
    && forall k :: 0 <= k < |cs| ==>
         cs[k].hp == before[k].hp && cs[k].atk == before[k].atk && cs[k].id == before[k].id && cs[k].isAI == before[k].isAI
  }

  /** The bullets after the first n are rebuilt, in order, from the attack events. */
  ghost predicate RebuiltFrom(bullets: seq<Bullet>, n: nat, attacks: seq<Event>, t: Texture)
    reads set b | b in bullets
  {
    && |bullets| == n + |attacks|
    && forall j :: 0 <= j < |attacks| ==> Rebuilt(bullets[n + j], attacks[j], t)
  }

  /**
   * Where handleMassage stands once it handled the messages seen: the same
   * rosters with the same stats, the old bullets followed by one rebuilt
   * from each CHARACTER_ATTACK seen, in order, and no message seen stopped it.
   */
  ghost predicate Relaying(w: World, heroes: seq<Character>, enemies: seq<Character>, hb: seq<Snapshot>, eb: seq<Snapshot>,
                           bullets0: seq<Bullet>, seen: seq<string>, decode: Decoder, t: Texture)
    reads w, w.grid, w.grid.matrix, (set c | c in heroes), (set c | c in enemies), set b | b in w.bullets
  {
    && w.Valid() && w.heroes == heroes && w.enemies == enemies
    && StatsKept(heroes, hb) && StatsKept(enemies, eb)
    && RebuiltFrom(w.bullets, |bullets0|, AttackEvents(seen, decode), t) && w.bullets[..|bullets0|] == bullets0
    && forall j :: 0 <= j < |seen| ==> Stop(decode(seen[j])).None?
  }

  class GameClient {
    /** The GameController's state, set from the init message. */
    const world: World
    /** The texture every relayed bullet is drawn with. */
    const bulletTexture: Texture
    /** Whether startBullet was called. */
    var bulletsStarted: bool

    constructor (world: World, bulletTexture: Texture)
      ensures this.world == world && this.bulletTexture == bulletTexture && !bulletsStarted
    {
      this.world, this.bulletTexture := world, bulletTexture;
      bulletsStarted := false;
    }

    /**
     * The handling of one relayed message that does not stop the loop:
     * handleClientEvent for its class, after which the state stands as the
     * messages so far, this one included, leave it.
     */
    method Relay(s: string, decode: Decoder, ghost heroes: seq<Character>, ghost enemies: seq<Character>,
                 ghost hb: seq<Snapshot>, ghost eb: seq<Snapshot>, ghost bullets0: seq<Bullet>, ghost seen: seq<string>)
      requires Relaying(world, heroes, enemies, hb, eb, bullets0, seen, decode, bulletTexture) && Stop(decode(s)).None?
      modifies world`bullets, (set c | c in world.heroes), (set c | c in world.enemies)
      ensures Relaying(world, heroes, enemies, hb, eb, bullets0, seen + [s], decode, bulletTexture)
    {
      AttacksSnoc(seen, s, decode);
      var done := HandleClientEvent(world, decode(s).value, bulletTexture);
      assert forall j :: 0 <= j < |seen| + 1 ==> (seen + [s])[j] == if j < |seen| then seen[j] else s;
      forall k | 0 <= k < |heroes|
        ensures heroes[k].hp == hb[k].hp && heroes[k].atk == hb[k].atk && heroes[k].id == hb[k].id && heroes[k].isAI == hb[k].isAI
      {
        assert heroes[k] in world.heroes;
      }
      forall k | 0 <= k < |enemies|
        ensures enemies[k].hp == eb[k].hp && enemies[k].atk == eb[k].atk && enemies[k].id == eb[k].id && enemies[k].isAI == eb[k].isAI
      {
        assert enemies[k] in world.enemies;
      }
    }

    /**
     * handleMassage: the chunk's non-blank pieces are handled in order until
     * one has an unknown type or is a HERO_ATTACK; every CHARACTER_ATTACK
     * before that point adds one bullet, and no character changes anything
     * but its position.
     */
    method HandleMessage(msg: string, decode: Decoder) returns (r: Result<()>, ghost handled: nat)
      requires world.Valid()
      modifies world`bullets, (set c | c in world.heroes), (set c | c in world.enemies)
      ensures world.Valid()
      ensures handled == FirstStop(Messages(msg), decode) && r == Outcome(Messages(msg), decode)
      ensures world.heroes == old(world.heroes) && world.enemies == old(world.enemies)
      ensures RebuiltFrom(world.bullets, |old(world.bullets)|, AttackEvents(Messages(msg)[..handled], decode), bulletTexture)
      ensures world.bullets[..|old(world.bullets)|] == old(world.bullets)
      ensures StatsKept(world.heroes, old(Snaps(world.heroes))) && StatsKept(world.enemies, old(Snaps(world.enemies)))
    {
      ghost var heroes, enemies, bullets0 := world.heroes, world.enemies, world.bullets;
      ghost var hb, eb := Snaps(heroes), Snaps(enemies);
      var parts := JavaSplit(msg, DELIMITER);
      ghost var seen: seq<string> := [];
      var i := 0;
      while i < |parts|
        invariant 0 <= i <= |parts|
        invariant seen == DropBlank(parts[..i])
        invariant Relaying(world, heroes, enemies, hb, eb, bullets0, seen, decode, bulletTexture)
      {
        var s := parts[i];
        DropBlankSnoc(parts, i);
        if IsBlank(s) {
          i := i + 1;
          continue;
        }
        var ev := decode(s);
        if Stop(ev).Some? {
          r := Err(Stop(ev).value);
          handled := |seen|;
          StoppedAt(parts, i, seen, decode);
          return;
        }
        Relay(s, decode, heroes, enemies, hb, eb, bullets0, seen);
        seen := seen + [s];
        i := i + 1;
      }
      assert parts[..i] == parts;
      handled := |seen|;
      FirstStopUnique(seen, decode, |seen|);
      assert seen[..handled] == seen;
      r := Ok(());
    }

    /**
     * The run loop's handling of one read: "start" (blanks around it
     * ignored) sets the bullets going, anything else is a batch of events.
     */
    method OnChunk(chunk: string, decode: Decoder) returns (r: Result<()>, ghost handled: nat)
      requires world.Valid()
      modifies this`bulletsStarted, world`bullets, (set c | c in world.heroes), (set c | c in world.enemies)
      ensures world.Valid()
      ensures Trim(chunk) == "start" ==>
                r == Ok(()) && bulletsStarted && world.bullets == old(world.bullets)
                && unchanged(set c | c in world.heroes) && unchanged(set c | c in world.enemies)
      ensures Trim(chunk) != "start" ==>
                && bulletsStarted == old(bulletsStarted)
                && handled == FirstStop(Messages(chunk), decode) && r == Outcome(Messages(chunk), decode)
                && RebuiltFrom(world.bullets, |old(world.bullets)|, AttackEvents(Messages(chunk)[..handled], decode), bulletTexture)
                && world.bullets[..|old(world.bullets)|] == old(world.bullets)
    {
      handled := 0;
      if Trim(chunk) == "start" {
        bulletsStarted := true;
        r := Ok(());
      } else {
        r, handled := HandleMessage(chunk, decode);
      }
    }
  }

  /** When the i-th piece is the first to stop, the chunk's outcome is that piece's failure. */
  lemma StoppedAt(parts: seq<string>, i: nat, seen: seq<string>, decode: Decoder)
    requires i < |parts| && seen == DropBlank(parts[..i]) && !IsBlank(parts[i])
    requires forall j :: 0 <= j < |seen| ==> Stop(decode(seen[j])).None?
    requires Stop(decode(parts[i])).Some?
    ensures var msgs := DropBlank(parts);
            && FirstStop(msgs, decode) == |seen| && |seen| < |msgs|
            && msgs[..|seen|] == seen
            && Outcome(msgs, decode) == Err(Stop(decode(parts[i])).value)
  {
    assert parts == parts[..i] + ([parts[i]] + parts[i + 1..]);
    DropBlankAppend(parts[..i], [parts[i]] + parts[i + 1..]);
    DropBlankAppend([parts[i]], parts[i + 1..]);
    assert DropBlank([parts[i]]) == [parts[i]];
    var msgs := DropBlank(parts);
    assert msgs == seen + ([parts[i]] + DropBlank(parts[i + 1..]));
    assert msgs[|seen|] == parts[i];
    FirstStopUnique(msgs, decode, |seen|);
  }

  // ---------------------------------------------------------------- input

  /** The keys keyDown tells apart; every other key code is OtherKey. */
  datatype Key = Up | W | Down | S | Left | A | Right | D | OtherKey

  /** The direction a key moves the hero: arrows and WASD, and no direction for any other key. */
  function KeyDirection(k: Key): (d: (int, int))
    ensures -1 <= d.0 <= 1 && -1 <= d.1 <= 1 && (d.0 == 0 || d.1 == 0)
  {
    match k
    case Up => (0, 1)
    case W => (0, 1)
    case Down => (0, -1)
    case S => (0, -1)
    case Left => (-1, 0)
    case A => (-1, 0)
    case Right => (1, 0)
    case D => (1, 0)
    case OtherKey => (0, 0)
  }

  /** Up and Down, Left and Right (and their letter keys) move the hero in opposite directions. */
  lemma OppositeKeys(k: Key, l: Key)
    requires (k in {Up, W} && l in {Down, S}) || (k in {Left, A} && l in {Right, D})
    ensures KeyDirection(k).0 == -KeyDirection(l).0 && KeyDirection(k).1 == -KeyDirection(l).1
    ensures KeyDirection(k) != (0, 0)
  {
  }

  /**
   * The move a key sends is one the server accepts, and one CharacterMove's
   * constructor assertion allows: a HERO_MOVE of at most one cell along one
   * axis.
   */
  lemma KeyMoveRoutable(k: Key, id: string)
    ensures Routable(CharacterMove(KeyDirection(k).0, KeyDirection(k).1, id, HERO_MOVE))
    ensures WellFormed(CharacterMove(KeyDirection(k).0, KeyDirection(k).1, id, HERO_MOVE))
  {
  }

  class InputHandler {
    var lastTimeMove: int
    var lastTimeAttack: int
    const hero: Character

    /** Both timers start at the moment the handler is made. */
    constructor (hero: Character, now: int)
      ensures this.hero == hero && lastTimeMove == now && lastTimeAttack == now
    {
      this.hero := hero;
      lastTimeMove, lastTimeAttack := now, now;
    }

    /**
     * keyDown: a live hero sends a HERO_MOVE in the key's direction at most
     * once every INTERVAL_MILLI / 2 milliseconds; otherwise nothing is sent.
     */
    method KeyDown(k: Key, now: int) returns (sent: Option<Event>)
      modifies this`lastTimeMove
      ensures hero.IsDead() || now - old(lastTimeMove) < INTERVAL_MILLI / 2 ==>
                sent.None? && lastTimeMove == old(lastTimeMove)
      ensures !hero.IsDead() && now - old(lastTimeMove) >= INTERVAL_MILLI / 2 ==>
                && lastTimeMove == now
                && sent == Some(CharacterMove(KeyDirection(k).0, KeyDirection(k).1, hero.id, HERO_MOVE))
    {
      if hero.IsDead() || now - lastTimeMove < INTERVAL_MILLI / 2 {
        return None;
      }
      lastTimeMove := now;
      var (dx, dy) := KeyDirection(k);
      sent := Some(CharacterMove(dx, dy, hero.id, HERO_MOVE));
    }

    /**
     * touchDown: a live hero sends a HERO_ATTACK at the touched point, in
     * world coordinates, at most once every INTERVAL_MILLI milliseconds.
     */
    method TouchDown(screenX: int, screenY: int, now: int, unproject: (int, int) -> (int, int))
      returns (sent: Option<Event>)
      modifies this`lastTimeAttack
      ensures hero.IsDead() || now - old(lastTimeAttack) < INTERVAL_MILLI ==>
                sent.None? && lastTimeAttack == old(lastTimeAttack)
      ensures !hero.IsDead() && now - old(lastTimeAttack) >= INTERVAL_MILLI ==>
                && lastTimeAttack == now
                && sent == Some(HeroAttack(hero.id, unproject(screenX, screenY).0, unproject(screenX, screenY).1, HERO_ATTACK))
    {
      if hero.IsDead() || now - lastTimeAttack < INTERVAL_MILLI {
        return None;
      }
      lastTimeAttack := now;
      var p := unproject(screenX, screenY);
      sent := Some(HeroAttack(hero.id, p.0, p.1, HERO_ATTACK));
    }
  }

  /** Two moves a handler sends are at least INTERVAL_MILLI / 2 milliseconds apart. */
  method TwoKeys(h: InputHandler, k1: Key, t1: int, k2: Key, t2: int) returns (first: Option<Event>, second: Option<Event>)
    modifies h`lastTimeMove
    ensures first.Some? && second.Some? ==> t2 - t1 >= INTERVAL_MILLI / 2
  {
    first := h.KeyDown(k1, t1);
    second := h.KeyDown(k2, t2);
  }
}
