/**
 * The game controller (com.mygdx.controller.GameController): building a new
 * game, telling whether a side has lost, and applying events that arrive
 * from the network, on the server (through the grid-checked hero step) and
 * on a client (by moving characters directly).
 *
 * The random cells drawn while placing characters are the `draws` parameter.
 */
module Controller {
  import opened Outcomes
  import opened Settings
  import opened Occupancy
  import opened Lists
  import opened Text
  import opened Events
  import opened Entities
  import opened GameWorld
  import opened Simulation

  /** isHeroEmpty and isEnemyEmpty: allMatch(isDead) over a roster, so true of an empty one. */
  function RosterDead(roster: seq<Character>): (r: bool)
    reads set c | c in roster
    ensures r <==> forall i :: 0 <= i < |roster| ==> Dead(roster[i].hp)
  {
    if roster == [] then true else roster[0].IsDead() && RosterDead(roster[1..])
  }

  /** The characters of a roster whose id equals the given one, in roster order. */
  function WithId(roster: seq<Character>, id: string): (m: seq<Character>)
    reads set c | c in roster
    ensures forall k :: 0 <= k < |m| ==> m[k] in roster && m[k].id == id
    ensures forall k :: 0 <= k < |roster| && roster[k].id == id ==> roster[k] in m
    ensures |m| <= |roster|
  {
    if roster == [] then []
    else WithId(roster[..|roster| - 1], id) + (if roster[|roster| - 1].id == id then [roster[|roster| - 1]] else [])
  }

  /** The character stands on a cell corner, as map/Map.java's assertions need. */
  predicate OnCorner(c: Character)
    reads c
  {
    c.x % CELL_SIZE == 0 && c.y % CELL_SIZE == 0
  }

  /** Only the position of the character changed. */
  twostate predicate OnlyMoved(c: Character)
    reads c
  {
    c.hp == old(c.hp) && c.atk == old(c.atk) && c.id == old(c.id) && c.isAI == old(c.isAI)
  }

  /** n copies of s, one after the other. */
  function Repeat<T>(s: seq<T>, n: nat): (r: seq<T>)
    ensures |r| == n * |s|
  {
    if n == 0 then [] else Repeat(s, n - 1) + s
  }

  // ---------------------------------------------------------------- events on the server

  /** The fields of a character at one moment. */
  datatype Snapshot = Snapshot(x: int, y: int, hp: int, atk: int, id: string, isAI: bool)

  ghost function Snap(c: Character): (s: Snapshot)
    reads c
  {
    Snapshot(c.x, c.y, c.hp, c.atk, c.id, c.isAI)
  }

  ghost function Snaps(roster: seq<Character>): (ss: seq<Snapshot>)
    reads set c | c in roster
    ensures |ss| == |roster| && forall k :: 0 <= k < |roster| ==> ss[k] == Snap(roster[k])
  {
    seq(|roster|, k reads set c | c in roster requires 0 <= k < |roster| => Snap(roster[k]))
  }

  /** How many of the first n snapshots carry the id. */
  function CountId(ss: seq<Snapshot>, id: string, n: nat): (count: nat)
    requires n <= |ss|
    ensures count <= n
  {
    if n == 0 then 0 else CountId(ss, id, n - 1) + (if ss[n - 1].id == id then 1 else 0)
  }

  /** The count depends on the ids alone. */
  lemma {:induction false} CountIdSameIds(a: seq<Snapshot>, b: seq<Snapshot>, id: string, n: nat)
    requires n <= |a| == |b| && forall k :: 0 <= k < |a| ==> a[k].id == b[k].id
    ensures CountId(a, id, n) == CountId(b, id, n)
  {
    if n > 0 {
      CountIdSameIds(a, b, id, n - 1);
    }
  }

  /** WithId picks from the first n characters as many as their snapshots carry the id. */
  lemma {:induction false} WithIdCount(roster: seq<Character>, id: string, n: nat)
    requires n <= |roster|
    ensures |WithId(roster[..n], id)| == CountId(Snaps(roster), id, n)
  {
    if n > 0 {
      WithIdCount(roster, id, n - 1);
      assert roster[..n][..n - 1] == roster[..n - 1];
    }
  }

  /**
   * The HERO_MOVE loop on values: where the first n heroes stand, what the
   * board holds and how many steps were taken once the loop visited them in
   * roster order, from the board `start` and their snapshots `before`.
   */
  datatype March = March(board: Board, at: seq<(int, int)>, moves: nat)

  /**
   * Hero.update(dx, dy) takes its step on board b for the hero snapshot s
   * exactly when s carries the id, the target reads free and it lies in the
   * heroes' half.
   */
  predicate Steps(b: Board, s: Snapshot, id: string, dx: int, dy: int, rows: int)
    requires b.Shaped()
  {
    s.id == id && b.Read(s.x + dx, s.y + dy) == FREE && HalfAllows(rows, s.x + dx, false)
  }

  /**
   * The reference for the HERO_MOVE loop after n heroes: a hero that steps
   * frees its cell and takes the target on the board the heroes before it
   * left; one that does not leaves the board alone. No more steps are taken
   * than heroes carry the id.
   */
  function MarchOn(start: Board, before: seq<Snapshot>, n: nat, id: string, dx: int, dy: int, rows: int): (m: March)
    requires start.Shaped() && n <= |before|
    ensures m.board.Shaped() && m.board.rows == start.rows && m.board.cols == start.cols
    ensures |m.at| == n && m.moves <= CountId(before, id, n)
  {
    if n == 0 then March(start, [], 0)
    else
      var m := MarchOn(start, before, n - 1, id, dx, dy, rows);
      var s := before[n - 1];
      if Steps(m.board, s, id, dx, dy, rows) then
        March(m.board.Write(s.x, s.y, FREE).Write(s.x + dx, s.y + dy, TAKEN), m.at + [(s.x + dx, s.y + dy)], m.moves + 1)
      else
        March(m.board, m.at + [(s.x, s.y)], m.moves)
  }

  /** Later heroes do not move the earlier ones. */
  lemma {:induction false} MarchPrefix(start: Board, before: seq<Snapshot>, n0: nat, n: nat, id: string, dx: int, dy: int, rows: int)
    requires start.Shaped() && n0 <= n <= |before|
    ensures MarchOn(start, before, n, id, dx, dy, rows).at[..n0] == MarchOn(start, before, n0, id, dx, dy, rows).at
    decreases n
  {
    if n > n0 {
      MarchPrefix(start, before, n0, n - 1, id, dx, dy, rows);
      var m := MarchOn(start, before, n - 1, id, dx, dy, rows);
      assert MarchOn(start, before, n, id, dx, dy, rows).at[..n - 1] == m.at;
    } else {
      assert MarchOn(start, before, n, id, dx, dy, rows).at[..n0] == MarchOn(start, before, n, id, dx, dy, rows).at;
    }
  }

  /**
   * Every hero ends where it stood, or, carrying the id, one step of
   * (dx, dy) on inside the heroes' half.
   */
  lemma MarchAt(start: Board, before: seq<Snapshot>, n: nat, k: nat, id: string, dx: int, dy: int, rows: int)
    requires start.Shaped() && k < n <= |before|
    ensures var p, b := MarchOn(start, before, n, id, dx, dy, rows).at[k], before[k];
            || p == (b.x, b.y)
            || (b.id == id && p == (b.x + dx, b.y + dy) && HalfAllows(rows, b.x + dx, false))
  {
    MarchPrefix(start, before, k + 1, n, id, dx, dy, rows);
    assert MarchOn(start, before, n, id, dx, dy, rows).at[k] == MarchOn(start, before, n, id, dx, dy, rows).at[..k + 1][k];
  }

  /** CountId never decreases along the roster. */
  lemma {:induction false} CountIdGrows(ss: seq<Snapshot>, id: string, n0: nat, n: nat)
    requires n0 <= n <= |ss|
    ensures CountId(ss, id, n0) <= CountId(ss, id, n)
    decreases n
  {
    if n > n0 {
      CountIdGrows(ss, id, n0, n - 1);
    }
  }

  /**
   * Across heroes none of which carries the id, nothing moves: the board
   * and the count stay, and each of those heroes stands where it stood.
   */
  lemma {:induction false} MarchQuiet(start: Board, before: seq<Snapshot>, n0: nat, n: nat, id: string, dx: int, dy: int, rows: int)
    requires start.Shaped() && n0 <= n <= |before|
    requires CountId(before, id, n) == CountId(before, id, n0)
    ensures var m0, m := MarchOn(start, before, n0, id, dx, dy, rows), MarchOn(start, before, n, id, dx, dy, rows);
            && m.board == m0.board && m.moves == m0.moves
            && forall k :: n0 <= k < n ==> m.at[k] == (before[k].x, before[k].y)
    decreases n
  {
    if n > n0 {
      CountIdGrows(before, id, n0, n - 1);
      assert before[n - 1].id != id;
      MarchQuiet(start, before, n0, n - 1, id, dx, dy, rows);
    }
  }

  /**
   * A move order for an id that exactly one hero carries, the j-th (as the
   * ids "hero0", "hero1", ... of a new game are): that hero steps exactly
   * when its target read free on the board before the order and lies in
   * the heroes' half; then its old cell is freed and the target taken and
   * one step is counted, otherwise the board and count stay; every other
   * hero stands where it stood.
   */
  lemma MarchOfOne(start: Board, before: seq<Snapshot>, j: nat, id: string, dx: int, dy: int, rows: int)
    requires start.Shaped() && j < |before| && before[j].id == id && CountId(before, id, |before|) == 1
    ensures var m, s := MarchOn(start, before, |before|, id, dx, dy, rows), before[j];
            var go := Steps(start, s, id, dx, dy, rows);
            && m.moves == (if go then 1 else 0)
            && m.board == (if go then start.Write(s.x, s.y, FREE).Write(s.x + dx, s.y + dy, TAKEN) else start)
            && m.at[j] == (if go then (s.x + dx, s.y + dy) else (s.x, s.y))
            && forall k :: 0 <= k < |before| && k != j ==> m.at[k] == (before[k].x, before[k].y)
  {
    var n := |before|;
    CountIdGrows(before, id, j + 1, n);
    MarchQuiet(start, before, 0, j, id, dx, dy, rows);
    MarchQuiet(start, before, j + 1, n, id, dx, dy, rows);
    MarchPrefix(start, before, j, n, id, dx, dy, rows);
    MarchPrefix(start, before, j + 1, n, id, dx, dy, rows);
    var m, mj := MarchOn(start, before, n, id, dx, dy, rows), MarchOn(start, before, j + 1, id, dx, dy, rows);
    assert m.at[j] == m.at[..j + 1][j] == mj.at[j];
    forall k | 0 <= k < j
      ensures m.at[k] == (before[k].x, before[k].y)
    {
      assert m.at[k] == m.at[..j][k];
    }
  }

  /**
   * The HERO_MOVE loop after the first i heroes, against the reference: the
   * board is the reference's, as is the count of steps; the visited heroes
   * stand where it puts them, the others where they stood; no hero changed
   * anything but its position.
   */
  ghost predicate Marched(heroes: seq<Character>, before: seq<Snapshot>, start: Board, now: Board, i: int,
                          id: string, dx: int, dy: int, rows: int, moves: nat)
    reads set c | c in heroes
  {
    && |before| == |heroes| && 0 <= i <= |heroes| && start.Shaped()
    && var m := MarchOn(start, before, i, id, dx, dy, rows);
       && now == m.board && moves == m.moves
       && Standing(heroes, before, m.at, i)
  }

  /**
   * The first i heroes stand where `at` puts them, the others where their
   * snapshots do; no hero changed anything but its position.
   */
  ghost predicate Standing(heroes: seq<Character>, before: seq<Snapshot>, at: seq<(int, int)>, i: int)
    reads set c | c in heroes
  {
    && |before| == |heroes| && 0 <= i == |at| <= |heroes|
    && forall k :: 0 <= k < |heroes| ==>
         var c, b := heroes[k], before[k];
         && c.hp == b.hp && c.atk == b.atk && c.id == b.id && c.isAI == b.isAI
         && (c.x, c.y) == (if k < i then at[k] else (b.x, b.y))
  }

  /**
   * The outcome of a move order for the heroes carrying id, against their
   * snapshots from before: every hero kept all but its position and stands
   * on a cell corner, and either stayed or, carrying the id, went one step
   * of (dirX, dirY) cells into the heroes' half.
   */
  ghost predicate MovedFrom(heroes: seq<Character>, before: seq<Snapshot>, id: string, dirX: int, dirY: int, rows: int)
    reads set c | c in heroes
  {
    && |before| == |heroes|
    && forall k :: 0 <= k < |heroes| ==>
         var c, b := heroes[k], before[k];
         && OnCorner(c) && c.hp == b.hp && c.atk == b.atk && c.id == b.id && c.isAI == b.isAI
         && (|| (c.x == b.x && c.y == b.y)
             || (c.id == id && c.x == b.x + dirX * CELL_SIZE && c.y == b.y + dirY * CELL_SIZE
                 && HalfAllows(rows, c.x, false)))
  }

  /** The snapshots stand on cell corners. */
  ghost predicate CornersOf(before: seq<Snapshot>)
  {
    forall k :: 0 <= k < |before| ==> before[k].x % CELL_SIZE == 0 && before[k].y % CELL_SIZE == 0
  }

  /** Once every hero was visited, each one stands where a move order allows. */
  lemma MarchedMoved(heroes: seq<Character>, before: seq<Snapshot>, start: Board, now: Board,
                     id: string, dirX: int, dirY: int, rows: int, moves: nat)
    requires Marched(heroes, before, start, now, |heroes|, id, dirX * CELL_SIZE, dirY * CELL_SIZE, rows, moves)
    requires CornersOf(before)
    ensures MovedFrom(heroes, before, id, dirX, dirY, rows)
  {
    forall k | 0 <= k < |heroes|
      ensures OnCorner(heroes[k])
      ensures || (heroes[k].x == before[k].x && heroes[k].y == before[k].y)
              || (heroes[k].id == id && heroes[k].x == before[k].x + dirX * CELL_SIZE
                  && heroes[k].y == before[k].y + dirY * CELL_SIZE && HalfAllows(rows, heroes[k].x, false))
    {
      MarchAt(start, before, |heroes|, k, id, dirX * CELL_SIZE, dirY * CELL_SIZE, rows);
    }
  }

  /** Visiting the heroes changes no id, so as many carry the id as before. */
  lemma MarchedCount(heroes: seq<Character>, before: seq<Snapshot>, start: Board, now: Board,
                     id: string, dx: int, dy: int, rows: int, moves: nat)
    requires Marched(heroes, before, start, now, |heroes|, id, dx, dy, rows, moves)
    ensures |WithId(heroes, id)| == CountId(before, id, |heroes|)
  {
    WithIdCount(heroes, id, |heroes|);
    assert heroes[..|heroes|] == heroes;
    CountIdSameIds(Snaps(heroes), before, id, |heroes|);
  }

  /**
   * A move order for an id exactly one hero carries, the j-th, read off the
   * heroes after the loop: the hero stepped exactly when its target read
   * free on the board before and lies in the heroes' half, and then the
   * board is the old one with its cell freed and the target taken and one
   * step was counted; otherwise the board and every position are as before.
   * The other heroes did not move.
   */
  lemma MoveOfOneHero(heroes: seq<Character>, before: seq<Snapshot>, start: Board, now: Board, j: nat,
                      id: string, dx: int, dy: int, rows: int, moves: nat)
    requires Marched(heroes, before, start, now, |heroes|, id, dx, dy, rows, moves)
    requires j < |heroes| && before[j].id == id && CountId(before, id, |heroes|) == 1
    ensures var s := before[j];
            var go := start.Read(s.x + dx, s.y + dy) == FREE && HalfAllows(rows, s.x + dx, false);
            && moves == (if go then 1 else 0)
            && now == (if go then start.Write(s.x, s.y, FREE).Write(s.x + dx, s.y + dy, TAKEN) else start)
            && heroes[j].x == (if go then s.x + dx else s.x) && heroes[j].y == (if go then s.y + dy else s.y)
            && forall k :: 0 <= k < |heroes| && k != j ==> heroes[k].x == before[k].x && heroes[k].y == before[k].y
  {
    MarchOfOne(start, before, j, id, dx, dy, rows);
  }

  /**
   * Hero.update(dx, dy) of the i-th hero, which carries the id, in the terms
   * of the reference: it steps exactly as Steps says on the board it finds,
   * and the heroes before it stay where they were placed.
   */
  method StepAt(w: World, h: Character, i: nat, id: string, dx: int, dy: int,
                ghost before: seq<Snapshot>, ghost at: seq<(int, int)>)
    returns (deliveries: seq<Delivery>, ghost moved: bool)
    requires w.Valid() && i < |w.heroes| && w.heroes[i] == h && h.id == id
    requires dx % CELL_SIZE == 0 && dy % CELL_SIZE == 0 && CornersOf(before)
    requires Standing(w.heroes, before, at, i)
    modifies h`x, h`y, w.grid, w.grid.matrix
    ensures w.Valid() && Standing(w.heroes, before, at + [(h.x, h.y)], i + 1)
    ensures var s := before[i];
            && moved == Steps(old(w.grid.Contents()), s, id, dx, dy, w.grid.rows)
            && (moved ==> && h.x == s.x + dx && h.y == s.y + dy
                          && w.grid.Contents() == old(w.grid.Contents()).Write(s.x, s.y, FREE).Write(s.x + dx, s.y + dy, TAKEN)
                          && deliveries == Deliveries(w.observers, CharacterMove(dx / CELL_SIZE, dy / CELL_SIZE, id, HERO_MOVE)))
            && (!moved ==> h.x == s.x && h.y == s.y && w.grid.Contents() == old(w.grid.Contents()) && deliveries == [])
  {
    deliveries, moved := HeroStep(h, w, dx, dy);
    forall k | 0 <= k < |w.heroes|
      ensures (w.heroes[k].x, w.heroes[k].y) == (if k < i + 1 then (at + [(h.x, h.y)])[k] else (before[k].x, before[k].y))
    {
      if k != i {
        assert w.heroes[k] != h;
      }
    }
  }

  /** The hero step of the i-th hero, which carries the id, keeping track of where all heroes stand. */
  method StepNext(w: World, h: Character, i: nat, id: string, dx: int, dy: int,
                  ghost before: seq<Snapshot>, ghost start: Board, ghost moves: nat)
    returns (deliveries: seq<Delivery>, ghost moves': nat)
    requires w.Valid() && i < |w.heroes| && w.heroes[i] == h && h.id == id
    requires dx % CELL_SIZE == 0 && dy % CELL_SIZE == 0 && CornersOf(before)
    requires Marched(w.heroes, before, start, w.grid.Contents(), i, id, dx, dy, w.grid.rows, moves)
    modifies h`x, h`y, w.grid, w.grid.matrix
    ensures w.Valid() && Marched(w.heroes, before, start, w.grid.Contents(), i + 1, id, dx, dy, w.grid.rows, moves')
    ensures moves' == moves + 1 ==> deliveries == Deliveries(w.observers, CharacterMove(dx / CELL_SIZE, dy / CELL_SIZE, id, HERO_MOVE))
    ensures moves' == moves ==> deliveries == []
  {
    ghost var m := MarchOn(start, before, i, id, dx, dy, w.grid.rows);
    ghost var moved;
    deliveries, moved := StepAt(w, h, i, id, dx, dy, before, m.at);
    moves' := if moved then moves + 1 else moves;
    assert MarchOn(start, before, i + 1, id, dx, dy, w.grid.rows).at == m.at + [(h.x, h.y)];
  }

  /** Where the HERO_MOVE loop stands once the first i heroes were visited. */
  ghost predicate Visiting(w: World, before: seq<Snapshot>, start: Board, i: int, id: string, dirX: int, dirY: int,
                           done: seq<Delivery>, moves: nat)
    reads w, w.grid, w.grid.matrix, set c | c in w.heroes
  {
    && w.Valid() && CornersOf(before)
    && Marched(w.heroes, before, start, w.grid.Contents(), i, id, dirX * CELL_SIZE, dirY * CELL_SIZE, w.grid.rows, moves)
    && done == Repeat(Deliveries(w.observers, CharacterMove(dirX, dirY, id, HERO_MOVE)), moves)
  }

  /** One round of the HERO_MOVE loop: the i-th hero steps if it carries the id, and the bookkeeping follows. */
  method VisitHero(w: World, h: Character, i: nat, id: string, dirX: int, dirY: int,
                   ghost before: seq<Snapshot>, ghost start: Board, done: seq<Delivery>, ghost moves: nat)
    returns (done': seq<Delivery>, ghost moves': nat)
    requires i < |w.heroes| && w.heroes[i] == h
    requires Visiting(w, before, start, i, id, dirX, dirY, done, moves)
    modifies h`x, h`y, w.grid, w.grid.matrix
    ensures Visiting(w, before, start, i + 1, id, dirX, dirY, done', moves')
  {
    var dx, dy := dirX * CELL_SIZE, dirY * CELL_SIZE;
    assert dx / CELL_SIZE == dirX && dy / CELL_SIZE == dirY;
    if h.id == id {
      var ds;
      ds, moves' := StepNext(w, h, i, id, dx, dy, before, start, moves);
      done' := done + ds;
    } else {
      done', moves' := done, moves;
      ghost var m := MarchOn(start, before, i, id, dx, dy, w.grid.rows);
      assert !Steps(m.board, before[i], id, dx, dy, w.grid.rows);
      assert MarchOn(start, before, i + 1, id, dx, dy, w.grid.rows).at == m.at + [(h.x, h.y)];
      assert Standing(w.heroes, before, m.at + [(h.x, h.y)], i + 1);
    }
  }

  /** The HERO_MOVE loop: every hero visited in roster order. */
  method VisitAll(w: World, id: string, dirX: int, dirY: int, ghost before: seq<Snapshot>, ghost start: Board)
    returns (done: seq<Delivery>, ghost moves: nat)
    requires Visiting(w, before, start, 0, id, dirX, dirY, [], 0)
    modifies (set c | c in w.heroes), w.grid, w.grid.matrix
    ensures Visiting(w, before, start, |w.heroes|, id, dirX, dirY, done, moves)
  {
    done, moves := [], 0;
    var i := 0;
    while i < |w.heroes|
      invariant 0 <= i <= |w.heroes| && w.heroes == old(w.heroes)
      invariant Visiting(w, before, start, i, id, dirX, dirY, done, moves)
    {
      done, moves := VisitHero(w, w.heroes[i], i, id, dirX, dirY, before, start, done, moves);
      i := i + 1;
    }
  }

  /**
   * The HERO_MOVE branch of handleServerEvent: the grid-checked step
   * (Hero.update(dx, dy)) of every hero carrying the id, in roster order,
   * each telling the observers when it moves. The board, the positions and
   * the number of steps are those of the reference MarchOn run from the
   * board and heroes before; so each hero keeps all but its position and
   * moves at most once, by one step of the event's direction into the
   * heroes' half.
   */
  method MoveHeroes(w: World, id: string, dirX: int, dirY: int) returns (done: seq<Delivery>, ghost moves: nat)
    requires w.Valid()
    requires forall k :: 0 <= k < |w.heroes| ==> OnCorner(w.heroes[k])
    modifies (set c | c in w.heroes), w.grid, w.grid.matrix
    ensures w.Valid()
    ensures Marched(w.heroes, old(Snaps(w.heroes)), old(w.grid.Contents()), w.grid.Contents(), |w.heroes|,
                    id, dirX * CELL_SIZE, dirY * CELL_SIZE, w.grid.rows, moves)
    ensures moves <= |WithId(w.heroes, id)|
    ensures done == Repeat(Deliveries(w.observers, CharacterMove(dirX, dirY, id, HERO_MOVE)), moves)
    ensures MovedFrom(w.heroes, old(Snaps(w.heroes)), id, dirX, dirY, w.grid.rows)
  {
    ghost var before, start := Snaps(w.heroes), w.grid.Contents();
    done, moves := VisitAll(w, id, dirX, dirY, before, start);
    MarchedCount(w.heroes, before, start, w.grid.Contents(), id, dirX * CELL_SIZE, dirY * CELL_SIZE, w.grid.rows, moves);
    MarchedMoved(w.heroes, before, start, w.grid.Contents(), id, dirX, dirY, w.grid.rows, moves);
  }

  /**
   * handleServerEvent(CharacterMove): a HERO_MOVE moves the heroes carrying
   * the event's id (MoveHeroes); ENEMY_MOVE is unsupported and any other tag
   * unknown, and then nothing changes.
   */
  method ServerMove(w: World, e: Event) returns (r: Result<seq<Delivery>>, ghost moves: nat)
    requires w.Valid() && e.CharacterMove?
    requires forall k :: 0 <= k < |w.heroes| ==> OnCorner(w.heroes[k])
    modifies (set c | c in w.heroes), w.grid, w.grid.matrix
    ensures w.Valid()
    ensures e.kind != HERO_MOVE ==>
              && r == Err(if e.kind == ENEMY_MOVE then UnsupportedOperation else UnknownEventType)
              && unchanged(set c | c in w.heroes) && w.grid.Contents() == old(w.grid.Contents())
    ensures e.kind == HERO_MOVE ==>
              && moves <= |WithId(w.heroes, e.id)|
              && r == Ok(Repeat(Deliveries(w.observers, CharacterMove(e.directionX, e.directionY, e.id, HERO_MOVE)), moves))
              && Marched(w.heroes, old(Snaps(w.heroes)), old(w.grid.Contents()), w.grid.Contents(), |w.heroes|,
                         e.id, e.directionX * CELL_SIZE, e.directionY * CELL_SIZE, w.grid.rows, moves)
              && MovedFrom(w.heroes, old(Snaps(w.heroes)), e.id, e.directionX, e.directionY, w.grid.rows)
  {
    if e.kind != HERO_MOVE {
      return Err(if e.kind == ENEMY_MOVE then UnsupportedOperation else UnknownEventType), 0;
    }
    var done;
    done, moves := MoveHeroes(w, e.id, e.directionX, e.directionY);
    r := Ok(done);
  }

  /** After the first n bullets come one per shooter, in order, each shot by it at (x, y). */
  ghost predicate Fired(bullets: seq<Bullet>, n: nat, shooters: seq<Character>, x: int, y: int, aim: Aim)
    reads (set b | b in bullets), (set c | c in shooters)
  {
    && |bullets| == n + |shooters|
    && forall j :: 0 <= j < |shooters| ==> ShotAt(bullets[n + j], shooters[j], x, y, aim)
  }

  /** Where the HERO_ATTACK loop stands once the first i heroes were visited: one shot per shooter so far. */
  ghost predicate Firing(w: World, heroes: seq<Character>, i: int, id: string, n: nat, shooters: seq<Character>,
                         x: int, y: int, aim: Aim)
    reads w, w.grid, w.grid.matrix, (set b | b in w.bullets), (set c | c in heroes), (set c | c in shooters)
  {
    && w.Valid() && w.heroes == heroes && 0 <= i <= |heroes| && n <= |w.bullets|
    && shooters == WithId(heroes[..i], id)
    && Fired(w.bullets, n, shooters, x, y, aim)
  }

  /** One round of the HERO_ATTACK loop: the i-th hero fires if it carries the id, the earlier shots kept. */
  method FireNext(w: World, heroes: seq<Character>, i: nat, id: string, n: nat, ghost shooters: seq<Character>,
                  x: int, y: int, aim: Aim)
    returns (ghost shooters': seq<Character>)
    requires i < |heroes| && Firing(w, heroes, i, id, n, shooters, x, y, aim)
    modifies w`bullets
    ensures Firing(w, heroes, i + 1, id, n, shooters', x, y, aim)
    ensures |old(w.bullets)| <= |w.bullets| && w.bullets[..|old(w.bullets)|] == old(w.bullets)
    ensures forall j :: |old(w.bullets)| <= j < |w.bullets| ==> fresh(w.bullets[j])
  {
    var h := heroes[i];
    assert heroes[..i + 1][..i] == heroes[..i];
    shooters' := shooters;
    if h.id == id {
      var b := HeroShoot(h, w, x, y, aim);
      shooters' := shooters + [h];
      forall j | 0 <= j < |shooters'|
        ensures ShotAt(w.bullets[n + j], shooters'[j], x, y, aim)
      {
        if j < |shooters| {
          assert w.bullets[n + j] == old(w.bullets)[n + j] && shooters'[j] == shooters[j];
          assert old(ShotAt(w.bullets[n + j], shooters[j], x, y, aim));
        }
      }
    }
  }

  /**
   * handleServerEvent(HeroAttack): every hero carrying the event's id, in
   * roster order, fires one bullet at the event's point.
   */
  method ServerHeroAttack(w: World, e: Event, aim: Aim) returns (r: Result<seq<Delivery>>)
    requires w.Valid() && e.HeroAttack?
    modifies w`bullets
    ensures w.Valid() && r == Ok([])
    ensures var shooters := WithId(w.heroes, e.id);
            && |w.bullets| == |old(w.bullets)| + |shooters|
            && w.bullets[..|old(w.bullets)|] == old(w.bullets)
            && forall j :: 0 <= j < |shooters| ==>
                 fresh(w.bullets[|old(w.bullets)| + j]) && ShotAt(w.bullets[|old(w.bullets)| + j], shooters[j], e.x, e.y, aim)
  {
    var heroes := w.heroes;
    var n := |w.bullets|;
    ghost var shooters: seq<Character> := [];
    var i := 0;
    while i < |heroes|
      invariant 0 <= i <= |heroes| && Firing(w, heroes, i, e.id, n, shooters, e.x, e.y, aim)
      invariant w.bullets[..n] == old(w.bullets)
      invariant forall j :: n <= j < |w.bullets| ==> fresh(w.bullets[j])
    {
      shooters := FireNext(w, heroes, i, e.id, n, shooters, e.x, e.y, aim);
      i := i + 1;
    }
    assert heroes[..i] == heroes;
    r := Ok([]);
  }

  /** handleServerEvent(CharacterAttack): never supported on the server. */
  method ServerCharacterAttack(e: Event) returns (r: Result<seq<Delivery>>)
    requires e.CharacterAttack?
    ensures r == Err(UnsupportedOperation)
  {
    r := Err(UnsupportedOperation);
  }

  // ---------------------------------------------------------------- events on a client

  /** Moves every character of the roster carrying the id by (dx, dy), leaving the rest where they are. */
  method ShiftMatching(roster: seq<Character>, id: string, dx: int, dy: int)
    requires Distinct(roster)
    modifies (set c | c in roster)
    ensures forall c :: c in roster ==> OnlyMoved(c)
    ensures forall c :: c in roster && c.id == id ==> c.x == old(c.x) + dx && c.y == old(c.y) + dy
    ensures forall c :: c in roster && c.id != id ==> c.x == old(c.x) && c.y == old(c.y)
  {
    var i := 0;
    while i < |roster|
      invariant 0 <= i <= |roster|
      invariant forall c :: c in roster ==> OnlyMoved(c)
      invariant forall k :: 0 <= k < i && roster[k].id == id ==> roster[k].x == old(roster[k].x) + dx && roster[k].y == old(roster[k].y) + dy
      invariant forall k :: 0 <= k < i && roster[k].id != id ==> roster[k].x == old(roster[k].x) && roster[k].y == old(roster[k].y)
      invariant forall k :: i <= k < |roster| ==> roster[k].x == old(roster[k].x) && roster[k].y == old(roster[k].y)
    {
      var c := roster[i];
      if c.id == id {
        c.Move(c.x + dx, c.y + dy);
      }
      i := i + 1;
    }
  }

  /**
   * Every character of `moving` carrying the id went (dx, dy) pixels on, the
   * rest of `moving` and every character only in `others` stayed put.
   */
  twostate predicate Shifted(moving: seq<Character>, others: seq<Character>, id: string, dx: int, dy: int)
    reads (set c | c in moving), (set c | c in others)
  {
    && (forall c :: c in moving && c.id == id ==> c.x == old(c.x) + dx && c.y == old(c.y) + dy)
    && (forall c :: c in moving && c.id != id ==> c.x == old(c.x) && c.y == old(c.y))
    && (forall c :: c in others && c !in moving ==> c.x == old(c.x) && c.y == old(c.y))
  }

  /** b is the bullet a CharacterAttack event describes, drawn with texture t, at full bullet health. */
  ghost predicate Rebuilt(b: Bullet, e: Event, t: Texture)
    reads b
  {
    && e.CharacterAttack?
    && b.x == e.x && b.y == e.y && b.atk == e.atk && b.hp == BULLET_HP
    && b.speedX == e.speedX && b.speedY == e.speedY && b.rotation == e.rotation && b.texture == t
  }

  /**
   * handleClientEvent(CharacterMove): the server has already checked the
   * step, so the characters carrying the id (heroes for HERO_MOVE, enemies
   * for ENEMY_MOVE) are moved by the event's cells without looking at the
   * grid; any other tag is unknown and changes nothing.
   */
  method ClientMove(w: World, e: Event) returns (r: Result<()>)
    requires w.Valid() && e.CharacterMove?
    modifies (set c | c in w.heroes), (set c | c in w.enemies)
    ensures forall c :: c in w.heroes || c in w.enemies ==> OnlyMoved(c)
    ensures e.kind == HERO_MOVE ==> r.Ok? && Shifted(w.heroes, w.enemies, e.id, e.directionX * CELL_SIZE, e.directionY * CELL_SIZE)
    ensures e.kind == ENEMY_MOVE ==> r.Ok? && Shifted(w.enemies, w.heroes, e.id, e.directionX * CELL_SIZE, e.directionY * CELL_SIZE)
    ensures e.kind != HERO_MOVE && e.kind != ENEMY_MOVE ==>
              && r == Err(UnknownEventType)
              && forall c :: c in w.heroes || c in w.enemies ==> c.x == old(c.x) && c.y == old(c.y)
  {
    if e.kind == HERO_MOVE {
      ShiftMatching(w.heroes, e.id, e.directionX * CELL_SIZE, e.directionY * CELL_SIZE);
      r := Ok(());
    } else if e.kind == ENEMY_MOVE {
      ShiftMatching(w.enemies, e.id, e.directionX * CELL_SIZE, e.directionY * CELL_SIZE);
      r := Ok(());
    } else {
      r := Err(UnknownEventType);
    }
  }

  /** handleClientEvent(CharacterAttack): the bullet the server fired, rebuilt from the event and appended. */
  method ClientCharacterAttack(w: World, e: Event, bulletTexture: Texture) returns (b: Bullet)
    requires w.Valid() && e.CharacterAttack?
    modifies w`bullets
    ensures w.Valid()
    ensures fresh(b) && w.bullets == old(w.bullets) + [b]
    ensures Rebuilt(b, e, bulletTexture)
  {
    b := new Bullet(e.x, e.y, e.atk, e.speedX, e.speedY, e.rotation, bulletTexture);
    w.bullets := w.bullets + [b];
  }

  /** handleClientEvent(HeroAttack): never supported on a client. */
  method ClientHeroAttack(e: Event) returns (r: Result<()>)
    requires e.HeroAttack?
    ensures r == Err(UnsupportedOperation)
  {
    r := Err(UnsupportedOperation);
  }

  /**
   * The overload of handleClientEvent Java picks for each of the three event
   * classes, with what each does.
   */
  method HandleClientEvent(w: World, e: Event, bulletTexture: Texture) returns (r: Result<()>)
    requires w.Valid() && !e.GameEvent?
    modifies w`bullets, (set c | c in w.heroes), (set c | c in w.enemies)
    ensures w.Valid()
    ensures w.heroes == old(w.heroes) && w.enemies == old(w.enemies)
    ensures forall c :: c in w.heroes || c in w.enemies ==> OnlyMoved(c)
    ensures e.HeroAttack? ==> r == Err(UnsupportedOperation) && w.bullets == old(w.bullets)
    ensures e.CharacterMove? ==> (r.Ok? <==> e.kind == HERO_MOVE || e.kind == ENEMY_MOVE) && w.bullets == old(w.bullets)
    ensures e.CharacterMove? && e.kind == HERO_MOVE ==>
              Shifted(w.heroes, w.enemies, e.id, e.directionX * CELL_SIZE, e.directionY * CELL_SIZE)
    ensures e.CharacterMove? && e.kind == ENEMY_MOVE ==>
              Shifted(w.enemies, w.heroes, e.id, e.directionX * CELL_SIZE, e.directionY * CELL_SIZE)
    ensures e.CharacterMove? && e.kind != HERO_MOVE && e.kind != ENEMY_MOVE ==>
              forall c :: c in w.heroes || c in w.enemies ==> c.x == old(c.x) && c.y == old(c.y)
    ensures e.CharacterAttack? ==>
              && r.Ok? && |w.bullets| == |old(w.bullets)| + 1 && w.bullets[..|old(w.bullets)|] == old(w.bullets)
              && fresh(w.bullets[|old(w.bullets)|]) && Rebuilt(w.bullets[|old(w.bullets)|], e, bulletTexture)
    ensures !e.CharacterMove? ==> forall c :: c in w.heroes || c in w.enemies ==> c.x == old(c.x) && c.y == old(c.y)
  {
    match e
    case CharacterMove(_, _, _, _) =>
      r := ClientMove(w, e);
    case CharacterAttack(_, _, _, _, _, _, _) =>
      var b := ClientCharacterAttack(w, e, bulletTexture);
      assert w.bullets[..|old(w.bullets)|] == old(w.bullets);
      r := Ok(());
    case HeroAttack(_, _, _, _) =>
      r := ClientHeroAttack(e);
  }

  // ---------------------------------------------------------------- a new game

  /** The id prefix of each side. */
  function IdPrefix(side: Side): string
  {
    match side
    case HeroSide => "hero"
    case EnemySide => "enemy"
  }

  /** The roster a side's characters are kept in. */
  function RosterOf(w: World, side: Side): (roster: seq<Character>)
    reads w
    ensures roster == if side == HeroSide then w.heroes else w.enemies
  {
    if side == HeroSide then w.heroes else w.enemies
  }

  function Opponent(side: Side): (other: Side)
    ensures other != side
  {
    if side == HeroSide then EnemySide else HeroSide
  }

  function StartHp(side: Side): int { if side == HeroSide then HERO_HP else ENEMY_HP }

  function StartAtk(side: Side): int { if side == HeroSide then HERO_ATK else ENEMY_ATK }

  /** The board with each listed point's cell marked taken, in order. */
  function MarkAll(b: Board, ps: seq<(int, int)>): (m: Board)
    requires b.Shaped()
    ensures m.Shaped() && m.rows == b.rows && m.cols == b.cols
  {
    if ps == [] then b else MarkAll(b, ps[..|ps| - 1]).Write(ps[|ps| - 1].0, ps[|ps| - 1].1, TAKEN)
  }

  predicate Corner(p: (int, int)) { p.0 % CELL_SIZE == 0 && p.1 % CELL_SIZE == 0 }

  /**
   * Marking cell corners: a corner of the map reads taken once it was
   * marked, and as before otherwise.
   */
  lemma {:induction false} MarkAllRead(b: Board, ps: seq<(int, int)>, p: (int, int))
    requires b.Shaped() && Corner(p)
    requires forall k :: 0 <= k < |ps| ==> Corner(ps[k])
    ensures MarkAll(b, ps).Read(p.0, p.1) == if b.InMap(p.0, p.1) && p in ps then TAKEN else b.Read(p.0, p.1)
  {
    if ps != [] {
      var front, last := ps[..|ps| - 1], ps[|ps| - 1];
      MarkAllRead(b, front, p);
      ReadAfterWrite(MarkAll(b, front), last.0, last.1, TAKEN, p.0, p.1);
      assert ps == front + [last];
      if b.InMap(last.0, last.1) && b.InMap(p.0, p.1) && b.SameCell(last.0, last.1, p.0, p.1) {
        assert last.0 == CELL_SIZE * (last.0 / CELL_SIZE) && p.0 == CELL_SIZE * (p.0 / CELL_SIZE);
        assert last.1 == CELL_SIZE * (last.1 / CELL_SIZE) && p.1 == CELL_SIZE * (p.1 / CELL_SIZE);
      }
    }
  }

  /** Where the characters stand. */
  ghost function Positions(cs: seq<Character>): (ps: seq<(int, int)>)
    reads set c | c in cs
    ensures |ps| == |cs| && forall k :: 0 <= k < |cs| ==> ps[k] == (cs[k].x, cs[k].y)
  {
    seq(|cs|, k reads set c | c in cs requires 0 <= k < |cs| => (cs[k].x, cs[k].y))
  }

  /** Marking a point and then the rest is marking the point first. */
  lemma {:induction false} MarkAllCons(b: Board, p: (int, int), ps: seq<(int, int)>)
    requires b.Shaped()
    ensures MarkAll(b, [p] + ps) == MarkAll(b.Write(p.0, p.1, TAKEN), ps)
    decreases |ps|
  {
    if ps != [] {
      MarkAllCons(b, p, ps[..|ps| - 1]);
      assert ([p] + ps)[..|ps|] == [p] + ps[..|ps| - 1];
    }
  }

  /** The corner of the cell a draw of initCharacter names: column and row index times CELL_SIZE. */
  function DrawCorner(d: (int, int)): (p: (int, int))
    ensures Corner(p)
  {
    (d.0 * CELL_SIZE, d.1 * CELL_SIZE)
  }

  /** The cell a draw names reads free on the board. */
  predicate LandsFree(b: Board, d: (int, int))
    requires b.Shaped()
  {
    b.Read(DrawCorner(d).0, DrawCorner(d).1) == FREE
  }

  /** The draw the retry loop of initCharacter settles on: the first from `from` on that lands free, or |draws| if none does. */
  function FirstFree(b: Board, draws: seq<(int, int)>, from: nat): (k: nat)
    requires b.Shaped() && from <= |draws|
    decreases |draws| - from
    ensures from <= k <= |draws|
    ensures forall j :: from <= j < k ==> !LandsFree(b, draws[j])
    ensures k < |draws| ==> LandsFree(b, draws[k])
  {
    if from == |draws| then |draws|
    else if LandsFree(b, draws[from]) then from
    else FirstFree(b, draws, from + 1)
  }

  /**
   * initCharacter on values: up to `count` cells, each the corner of the
   * first draw after the previous placement that lands free on the board
   * the earlier placements left, which it then takes. Placing ends early
   * only when the draws run out.
   */
  function Placements(b: Board, draws: seq<(int, int)>, from: nat, count: int): (cells: seq<(int, int)>)
    requires b.Shaped()
    decreases |draws| - from
    ensures |cells| <= count || cells == []
  {
    if count <= 0 || from >= |draws| then []
    else
      var k := FirstFree(b, draws, from);
      if k == |draws| then []
      else
        var p := DrawCorner(draws[k]);
        [p] + Placements(b.Write(p.0, p.1, TAKEN), draws, k + 1, count - 1)
  }

  /** Every placed point is a cell corner. */
  lemma {:induction false} PlacementsCorners(b: Board, draws: seq<(int, int)>, from: nat, count: int)
    requires b.Shaped()
    decreases |draws| - from
    ensures forall k :: 0 <= k < |Placements(b, draws, from, count)| ==> Corner(Placements(b, draws, from, count)[k])
  {
    if count > 0 && from < |draws| && FirstFree(b, draws, from) < |draws| {
      var p := DrawCorner(draws[FirstFree(b, draws, from)]);
      PlacementsCorners(b.Write(p.0, p.1, TAKEN), draws, FirstFree(b, draws, from) + 1, count - 1);
    }
  }

  /**
   * Fewer than `count` characters are placed only when no draw from `from`
   * on lands free on the board once the placed cells are taken.
   */
  lemma {:induction false} PlacementsShort(b: Board, draws: seq<(int, int)>, from: nat, count: int)
    requires b.Shaped()
    decreases |draws| - from
    ensures var cells := Placements(b, draws, from, count);
            |cells| < count ==> forall j :: from <= j < |draws| ==> !LandsFree(MarkAll(b, cells), draws[j])
  {
    var cells := Placements(b, draws, from, count);
    if count > 0 && from < |draws| {
      var k := FirstFree(b, draws, from);
      if k < |draws| {
        var p := DrawCorner(draws[k]);
        var rest := Placements(b.Write(p.0, p.1, TAKEN), draws, k + 1, count - 1);
        assert cells == [p] + rest;
        PlacementsShort(b.Write(p.0, p.1, TAKEN), draws, k + 1, count - 1);
        PlacementsCorners(b, draws, from, count);
        MarkAllCons(b, p, rest);
        TakenUpTo(b, draws, from, k, cells);
      }
    }
  }

  /**
   * Where initCharacter stands after placing `cells`, the board now being
   * `now`, with the draws before `next` used up: what is still to be placed
   * completes the placements.
   */
  ghost predicate Remaining(start: Board, now: Board, draws: seq<(int, int)>, count: int, cells: seq<(int, int)>, next: nat)
    requires start.Shaped() && now.Shaped()
  {
    cells + Placements(now, draws, next, count - |cells|) == Placements(start, draws, 0, count)
  }

  /** A retry loop that found the free draw next - 1 places its corner next, on the board with that cell taken. */
  lemma RemainingNext(start: Board, now: Board, draws: seq<(int, int)>, count: int, cells: seq<(int, int)>, from: nat, next: nat)
    requires start.Shaped() && now.Shaped() && Remaining(start, now, draws, count, cells, from)
    requires from < next <= |draws| && |cells| < count
    requires FirstFree(now, draws, from) == next - 1
    ensures Remaining(start, now.Write(DrawCorner(draws[next - 1]).0, DrawCorner(draws[next - 1]).1, TAKEN), draws, count,
                      cells + [DrawCorner(draws[next - 1])], next)
  {
    var p := DrawCorner(draws[next - 1]);
    var rest := Placements(now.Write(p.0, p.1, TAKEN), draws, next, count - |cells| - 1);
    assert Placements(now, draws, from, count - |cells|) == [p] + rest;
    assert |cells + [p]| == |cells| + 1;
    assert cells + ([p] + rest) == (cells + [p]) + rest;
  }

  /**
   * Once the first free draw k is placed first, neither it nor any draw
   * the retry loop passed over lands free after the marking.
   */
  lemma TakenUpTo(b: Board, draws: seq<(int, int)>, from: nat, k: nat, cells: seq<(int, int)>)
    requires b.Shaped() && from <= |draws| && FirstFree(b, draws, from) == k < |draws|
    requires cells != [] && cells[0] == DrawCorner(draws[k]) && forall i :: 0 <= i < |cells| ==> Corner(cells[i])
    ensures forall j :: from <= j <= k ==> !LandsFree(MarkAll(b, cells), draws[j])
  {
    forall j | from <= j <= k
      ensures !LandsFree(MarkAll(b, cells), draws[j])
    {
      var q := DrawCorner(draws[j]);
      MarkAllRead(b, cells, q);
      if j == k {
        assert b.InMap(q.0, q.1) && q in cells;
      } else {
        assert b.Read(q.0, q.1) != FREE;
      }
    }
  }

  /** The retry loop stopping at draw k, every draw before it landing on a taken cell, is FirstFree. */
  lemma FirstFreeAt(b: Board, draws: seq<(int, int)>, from: nat, k: nat)
    requires b.Shaped() && from <= k <= |draws|
    requires forall j :: from <= j < k ==> !LandsFree(b, draws[j])
    requires k < |draws| ==> LandsFree(b, draws[k])
    ensures FirstFree(b, draws, from) == k
  {
  }

  /** Marking one point more is one more write. */
  lemma MarkAllSnoc(b: Board, ps: seq<(int, int)>, p: (int, int))
    requires b.Shaped()
    ensures MarkAll(b, ps + [p]) == MarkAll(b, ps).Write(p.0, p.1, TAKEN)
  {
    assert (ps + [p])[..|ps|] == ps;
  }

  /** Nothing placed yet: everything is still to be placed. */
  lemma RemainingStart(start: Board, draws: seq<(int, int)>, count: int)
    requires start.Shaped()
    ensures Remaining(start, start, draws, count, [], 0)
  {
    assert [] + Placements(start, draws, 0, count) == Placements(start, draws, 0, count);
  }

  /** Placing ends once the draws run out, the count is reached, or no remaining draw lands free. */
  lemma RemainingDone(start: Board, now: Board, draws: seq<(int, int)>, count: int, cells: seq<(int, int)>, from: nat)
    requires start.Shaped() && now.Shaped() && Remaining(start, now, draws, count, cells, from) && from <= |draws|
    requires |cells| >= count || FirstFree(now, draws, from) == |draws|
    ensures cells == Placements(start, draws, 0, count)
  {
    assert Placements(now, draws, from, count - |cells|) == [];
    assert cells + [] == cells;
  }

  /**
   * The retry loop of initCharacter: from position `from` on, the first
   * drawn cell whose corner reads free, if the draws hold one.
   */
  method DrawFree(grid: Grid, draws: seq<(int, int)>, from: nat) returns (found: bool, x: int, y: int, next: nat)
    requires grid.Valid() && from < |draws|
    ensures from < next <= |draws|
    ensures found ==> x == draws[next - 1].0 * CELL_SIZE && y == draws[next - 1].1 * CELL_SIZE
                      && Corner((x, y)) && grid.Contents().Read(x, y) == FREE
    ensures !found ==> next == |draws|
    ensures forall k :: from <= k < next - 1 ==> !LandsFree(grid.Contents(), draws[k])
    ensures found <==> LandsFree(grid.Contents(), draws[next - 1])
  {
    next := from + 1;
    x, y := draws[from].0 * CELL_SIZE, draws[from].1 * CELL_SIZE;
    var v := grid.GetAligned(x, y);
    while v != FREE && next < |draws|
      invariant from < next <= |draws|
      decreases |draws| - next
      invariant x == draws[next - 1].0 * CELL_SIZE && y == draws[next - 1].1 * CELL_SIZE
      invariant v == grid.Contents().Read(x, y)
      invariant forall k :: from <= k < next - 1 ==> !LandsFree(grid.Contents(), draws[k])
    {
      x, y := draws[next].0 * CELL_SIZE, draws[next].1 * CELL_SIZE;
      next := next + 1;
      v := grid.GetAligned(x, y);
    }
    found := v == FREE;
  }

  /** The fields initHero or initEnemy gives the i-th character of a side. */
  predicate Spawned(c: Character, side: Side, i: nat)
    reads c
  {
    && c.id == IdPrefix(side) + NatToString(i) && c.side == side
    && c.hp == StartHp(side) && c.atk == StartAtk(side) && c.isAI
  }

  /** placed[k] stands on cells[k] and carries the fields of the k-th character of its side. */
  ghost predicate Placed(placed: seq<Character>, cells: seq<(int, int)>, side: Side)
    reads set c | c in placed
  {
    && |placed| == |cells|
    && forall k :: 0 <= k < |placed| ==> placed[k].x == cells[k].0 && placed[k].y == cells[k].1 && Spawned(placed[k], side, k)
  }

  lemma PlacedSnoc(placed: seq<Character>, cells: seq<(int, int)>, side: Side, c: Character)
    requires Placed(placed, cells, side) && Spawned(c, side, |placed|)
    ensures Placed(placed + [c], cells + [(c.x, c.y)], side)
  {
  }

  /**
   * One placement of initCharacter: the cell at (x, y) is taken and the new
   * character, standing there, joins its side's roster.
   */
  method Spawn(w: World, x: int, y: int, side: Side, i: nat, bulletTexture: Texture) returns (c: Character)
    requires w.Valid() && x % CELL_SIZE == 0 && y % CELL_SIZE == 0
    modifies w`heroes, w`enemies, w.grid, w.grid.matrix
    ensures w.Valid()
    ensures fresh(c) && c.x == x && c.y == y && Spawned(c, side, i)
    ensures w.grid.Contents() == old(w.grid.Contents()).Write(x, y, TAKEN)
    ensures RosterOf(w, side) == old(RosterOf(w, side)) + [c] && RosterOf(w, Opponent(side)) == old(RosterOf(w, Opponent(side)))
  {
    w.grid.SetAligned(x, y, TAKEN);
    c := new Character(x, y, StartHp(side), StartAtk(side), side, bulletTexture);
    c.SetId(IdPrefix(side) + NatToString(i));
    if side == HeroSide {
      w.heroes := w.heroes + [c];
    } else {
      w.enemies := w.enemies + [c];
    }
  }

  /**
   * The cells placed so far: distinct cell corners with column index in
   * [l, r), each on the map and free before placing began.
   */
  ghost predicate Claimed(start: Board, cells: seq<(int, int)>, l: int, r: int)
    requires start.Shaped()
  {
    && (forall k :: 0 <= k < |cells| ==>
          && Corner(cells[k]) && l * CELL_SIZE <= cells[k].0 < r * CELL_SIZE
          && start.InMap(cells[k].0, cells[k].1) && start.Read(cells[k].0, cells[k].1) == FREE)
    && (forall j, k :: 0 <= j < k < |cells| ==> cells[j] != cells[k])
  }

  /** A corner in range that still reads free after the marking can be claimed next. */
  lemma ClaimedSnoc(start: Board, cells: seq<(int, int)>, l: int, r: int, p: (int, int))
    requires start.Shaped() && Claimed(start, cells, l, r)
    requires Corner(p) && l * CELL_SIZE <= p.0 < r * CELL_SIZE && MarkAll(start, cells).Read(p.0, p.1) == FREE
    ensures Claimed(start, cells + [p], l, r)
    ensures MarkAll(start, cells + [p]) == MarkAll(start, cells).Write(p.0, p.1, TAKEN)
  {
    MarkAllRead(start, cells, p);
    assert (cells + [p])[..|cells|] == cells;
  }

  /**
   * A roster as initCharacter builds it: the k-th character carries the
   * side's k-th id and starting fields and stands on a cell corner with x
   * in [lo, hi).
   */
  ghost predicate LinedUp(roster: seq<Character>, side: Side, lo: int, hi: int)
    reads set c | c in roster
  {
    forall k :: 0 <= k < |roster| ==> Spawned(roster[k], side, k) && OnCorner(roster[k]) && lo <= roster[k].x < hi
  }

  /** Every listed point reads v on the board. */
  predicate AllRead(b: Board, ps: seq<(int, int)>, v: int)
    requires b.Shaped()
  {
    forall k :: 0 <= k < |ps| ==> b.Read(ps[k].0, ps[k].1) == v
  }

  /** What the placements add up to once initCharacter stops. */
  lemma PlacedFacts(side: Side, start: Board, l: int, r: int, placed: seq<Character>, cells: seq<(int, int)>)
    requires start.Shaped() && Claimed(start, cells, l, r) && Placed(placed, cells, side)
    ensures Positions(placed) == cells
    ensures LinedUp(placed, side, l * CELL_SIZE, r * CELL_SIZE)
    ensures AllRead(start, cells, FREE) && AllRead(MarkAll(start, cells), cells, TAKEN)
    ensures Distinct(cells)
  {
    forall k | 0 <= k < |cells|
      ensures MarkAll(start, cells).Read(cells[k].0, cells[k].1) == TAKEN
    {
      MarkAllRead(start, cells, cells[k]);
    }
  }

  /**
   * The state initCharacter keeps while placing: the side's roster is the
   * one it started from followed by the placed characters, the other
   * roster is as it was, and the grid is the starting one with the
   * claimed cells taken.
   */
  ghost predicate Progress(w: World, side: Side, roster0: seq<Character>, others: seq<Character>,
                           start: Board, l: int, r: int, placed: seq<Character>, cells: seq<(int, int)>)
    reads w, w.grid, w.grid.matrix, set c | c in placed
  {
    && w.Valid() && start.Shaped() && w.grid.rows == start.rows && w.grid.cols == start.cols
    && RosterOf(w, side) == roster0 + placed && RosterOf(w, Opponent(side)) == others
    && Claimed(start, cells, l, r) && w.grid.Contents() == MarkAll(start, cells)
    && Placed(placed, cells, side)
  }

  /**
   * One placement of initCharacter, after those already made: the free
   * corner (x, y) is taken by the next character of the side.
   */
  method PlaceNext(w: World, x: int, y: int, side: Side, bulletTexture: Texture,
                   ghost roster0: seq<Character>, ghost others: seq<Character>, ghost start: Board, ghost l: int, ghost r: int,
                   placed: seq<Character>, ghost cells: seq<(int, int)>)
    returns (placed': seq<Character>, ghost cells': seq<(int, int)>)
    requires Progress(w, side, roster0, others, start, l, r, placed, cells)
    requires Corner((x, y)) && l * CELL_SIZE <= x < r * CELL_SIZE && w.grid.Contents().Read(x, y) == FREE
    modifies w`heroes, w`enemies, w.grid, w.grid.matrix
    ensures Progress(w, side, roster0, others, start, l, r, placed', cells')
    ensures |placed'| == |placed| + 1 && placed' == placed + [placed'[|placed|]] && fresh(placed'[|placed|])
    ensures cells' == cells + [(x, y)]
  {
    ClaimedSnoc(start, cells, l, r, (x, y));
    var c := Spawn(w, x, y, side, |placed|, bulletTexture);
    PlacedSnoc(placed, cells, side, c);
    assert roster0 + placed + [c] == roster0 + (placed + [c]);
    placed', cells' := placed + [c], cells + [(x, y)];
  }

  /**
   * One round of initCharacter's outer loop: the retry loop draws from
   * `next` on; its first free draw is placed and the placements go on from
   * the draw after it, and when none lands free the placements are complete.
   */
  method PlaceOne(w: World, side: Side, bulletTexture: Texture, draws: seq<(int, int)>, count: int,
                  ghost roster0: seq<Character>, ghost others: seq<Character>, ghost start: Board, ghost l: int, ghost r: int,
                  placed: seq<Character>, ghost cells: seq<(int, int)>, next: nat)
    returns (found: bool, placed': seq<Character>, ghost cells': seq<(int, int)>, next': nat)
    requires Progress(w, side, roster0, others, start, l, r, placed, cells) && Remaining(start, w.grid.Contents(), draws, count, cells, next)
    requires |placed| < count && next < |draws|
    requires forall k :: 0 <= k < |draws| ==> l <= draws[k].0 < r
    modifies w`heroes, w`enemies, w.grid, w.grid.matrix
    ensures Progress(w, side, roster0, others, start, l, r, placed', cells') && next < next' <= |draws|
    ensures found ==> |placed'| == |placed| + 1 && Remaining(start, w.grid.Contents(), draws, count, cells', next')
    ensures !found ==> placed' == placed && cells' == cells && cells == Placements(start, draws, 0, count)
  {
    var x, y;
    found, x, y, next' := DrawFree(w.grid, draws, next);
    if !found {
      FirstFreeAt(w.grid.Contents(), draws, next, |draws|);
      RemainingDone(start, w.grid.Contents(), draws, count, cells, next);
      placed', cells' := placed, cells;
      return;
    }
    FirstFreeAt(w.grid.Contents(), draws, next, next' - 1);
    RemainingNext(start, w.grid.Contents(), draws, count, cells, next, next');
    MarkAllSnoc(start, cells, (x, y));
    placed', cells' := PlaceNext(w, x, y, side, bulletTexture, roster0, others, start, l, r, placed, cells);
  }

  /** The outer loop of initCharacter: rounds of PlaceOne until `count` are placed or the draws give out. */
  method PlaceAll(w: World, side: Side, bulletTexture: Texture, draws: seq<(int, int)>, count: int,
                  ghost roster0: seq<Character>, ghost others: seq<Character>, ghost start: Board, ghost l: int, ghost r: int)
    returns (placed: seq<Character>, ghost cells: seq<(int, int)>)
    requires Progress(w, side, roster0, others, start, l, r, [], [])
    requires forall k :: 0 <= k < |draws| ==> l <= draws[k].0 < r
    modifies w`heroes, w`enemies, w.grid, w.grid.matrix
    ensures Progress(w, side, roster0, others, start, l, r, placed, cells)
    ensures cells == Placements(start, draws, 0, count)
  {
    cells := [];
    placed := [];
    var next := 0;
    RemainingStart(start, draws, count);
    while |placed| < count && next < |draws|
      invariant 0 <= next <= |draws|
      invariant Progress(w, side, roster0, others, start, l, r, placed, cells)
      invariant Remaining(start, w.grid.Contents(), draws, count, cells, next)
    {
      var found;
      found, placed, cells, next := PlaceOne(w, side, bulletTexture, draws, count, roster0, others, start, l, r, placed, cells, next);
      if !found {
        return;
      }
    }
    RemainingDone(start, w.grid.Contents(), draws, count, cells, next);
  }

  /**
   * GameController.initCharacter with initHero or initEnemy: count
   * characters of one side, the i-th on the first drawn cell (column index
   * in [l, r), row index any) that reads free, which it then takes; the i-th
   * is named by its side and i and starts with the side's health and
   * attack. The draws stand for MathUtils.random; placing stops when they run out.
   */
  method InitCharacter(w: World, count: int, l: int, r: int, side: Side, bulletTexture: Texture, draws: seq<(int, int)>)
    returns (placed: seq<Character>)
    requires w.Valid()
    requires forall k :: 0 <= k < |draws| ==> l <= draws[k].0 < r
    modifies w`heroes, w`enemies, w.grid, w.grid.matrix
    ensures w.Valid()
    ensures |placed| <= count || placed == []
    ensures RosterOf(w, side) == old(RosterOf(w, side)) + placed && RosterOf(w, Opponent(side)) == old(RosterOf(w, Opponent(side)))
    ensures LinedUp(placed, side, l * CELL_SIZE, r * CELL_SIZE) && Distinct(Positions(placed))
    ensures AllRead(old(w.grid.Contents()), Positions(placed), FREE) && AllRead(w.grid.Contents(), Positions(placed), TAKEN)
    ensures w.grid.Contents() == MarkAll(old(w.grid.Contents()), Positions(placed))
    ensures Positions(placed) == Placements(old(w.grid.Contents()), draws, 0, count)
    ensures |placed| < count ==> forall j :: 0 <= j < |draws| ==> !LandsFree(w.grid.Contents(), draws[j])
  {
    ghost var start := w.grid.Contents();
    ghost var cells;
    placed, cells := PlaceAll(w, side, bulletTexture, draws, count, old(RosterOf(w, side)), old(RosterOf(w, Opponent(side))), start, l, r);
    PlacedFacts(side, start, l, r, placed, cells);
    PlacementsShort(start, draws, 0, count);
  }

  /** The points of a lined-up roster are cell corners. */
  lemma LinedUpCorners(roster: seq<Character>, side: Side, lo: int, hi: int)
    requires LinedUp(roster, side, lo, hi)
    ensures forall k :: 0 <= k < |roster| ==> Corner(Positions(roster)[k])
  {
  }

  /** Marking more corners keeps taken corners taken. */
  lemma StaysTaken(b: Board, ps: seq<(int, int)>, qs: seq<(int, int)>)
    requires b.Shaped() && AllRead(b, qs, TAKEN)
    requires forall k :: 0 <= k < |ps| ==> Corner(ps[k])
    requires forall k :: 0 <= k < |qs| ==> Corner(qs[k])
    ensures AllRead(MarkAll(b, ps), qs, TAKEN)
  {
    forall k | 0 <= k < |qs|
      ensures MarkAll(b, ps).Read(qs[k].0, qs[k].1) == TAKEN
    {
      MarkAllRead(b, ps, qs[k]);
    }
  }

  /** Heroes placed in the columns below half the rows start in the heroes' half, where their own moves keep them. */
  lemma HeroesStartInTheirHalf(roster: seq<Character>, rows: int)
    requires LinedUp(roster, HeroSide, 0, rows / 2 * CELL_SIZE)
    ensures forall k :: 0 <= k < |roster| ==> HalfAllows(rows, roster[k].x, false)
  {
  }

  /** Characters whose fields stayed put are at the same points. */
  twostate lemma PositionsKept(cs: seq<Character>)
    requires unchanged(set c | c in cs)
    ensures Positions(cs) == old(Positions(cs))
  {
  }

  /**
   * The second half of initGame: the enemies are placed beside heroes that
   * are already lined up on taken corners, and those stay as they are.
   */
  method PlaceEnemies(w: World, count: int, l: int, r: int, bulletTexture: Texture, draws: seq<(int, int)>)
    returns (es: seq<Character>)
    requires w.Valid() && w.enemies == []
    requires LinedUp(w.heroes, HeroSide, 0, l * CELL_SIZE) && AllRead(w.grid.Contents(), Positions(w.heroes), TAKEN)
    requires forall k :: 0 <= k < |draws| ==> l <= draws[k].0 < r
    modifies w`heroes, w`enemies, w.grid, w.grid.matrix
    ensures w.Valid() && w.heroes == old(w.heroes) && w.enemies == es
    ensures |es| <= count || es == []
    ensures unchanged(set c | c in w.heroes)
    ensures LinedUp(w.heroes, HeroSide, 0, l * CELL_SIZE) && LinedUp(es, EnemySide, l * CELL_SIZE, r * CELL_SIZE)
    ensures w.grid.Contents() == MarkAll(old(w.grid.Contents()), Positions(es))
    ensures AllRead(w.grid.Contents(), Positions(w.heroes), TAKEN) && AllRead(w.grid.Contents(), Positions(es), TAKEN)
    ensures Positions(es) == Placements(old(w.grid.Contents()), draws, 0, count)
    ensures |es| < count ==> forall j :: 0 <= j < |draws| ==> !LandsFree(w.grid.Contents(), draws[j])
  {
    ghost var before := w.grid.Contents();
    ghost var heroCells := Positions(w.heroes);
    LinedUpCorners(w.heroes, HeroSide, 0, l * CELL_SIZE);
    es := InitCharacter(w, count, l, r, EnemySide, bulletTexture, draws);
    assert Opponent(EnemySide) == HeroSide;
    assert w.heroes == old(w.heroes) && w.enemies == es;
    LinedUpCorners(es, EnemySide, l * CELL_SIZE, r * CELL_SIZE);
    StaysTaken(before, Positions(es), heroCells);
  }

  /**
   * initGame: an empty grid of the configured size, heroes placed in the
   * columns below half the rows and enemies in the rest, each on a cell it
   * took, no bullets and no observers.
   */
  method InitGame(cfg: Config, bulletTexture: Texture, heroDraws: seq<(int, int)>, enemyDraws: seq<(int, int)>) returns (w: World)
    requires cfg.rows >= 0 && cfg.cols >= 0
    requires forall k :: 0 <= k < |heroDraws| ==> 0 <= heroDraws[k].0 < cfg.rows / 2
    requires forall k :: 0 <= k < |enemyDraws| ==> cfg.rows / 2 <= enemyDraws[k].0 < cfg.rows
    ensures fresh(w) && fresh(w.grid) && w.Valid() && w.bullets == [] && w.observers == []
    ensures w.grid.rows == cfg.rows && w.grid.cols == cfg.cols
    ensures |w.heroes| <= cfg.initHeroCount || w.heroes == []
    ensures |w.enemies| <= cfg.initEnemyCount || w.enemies == []
    ensures LinedUp(w.heroes, HeroSide, 0, cfg.rows / 2 * CELL_SIZE)
    ensures LinedUp(w.enemies, EnemySide, cfg.rows / 2 * CELL_SIZE, cfg.rows * CELL_SIZE)
    ensures w.grid.Contents() == MarkAll(MarkAll(Empty(cfg.rows, cfg.cols), Positions(w.heroes)), Positions(w.enemies))
    ensures AllRead(w.grid.Contents(), Positions(w.heroes), TAKEN) && AllRead(w.grid.Contents(), Positions(w.enemies), TAKEN)
    ensures Positions(w.heroes) == Placements(Empty(cfg.rows, cfg.cols), heroDraws, 0, cfg.initHeroCount)
    ensures Positions(w.enemies) == Placements(MarkAll(Empty(cfg.rows, cfg.cols), Positions(w.heroes)), enemyDraws, 0, cfg.initEnemyCount)
    ensures |w.heroes| < cfg.initHeroCount ==>
              forall j :: 0 <= j < |heroDraws| ==> !LandsFree(MarkAll(Empty(cfg.rows, cfg.cols), Positions(w.heroes)), heroDraws[j])
    ensures |w.enemies| < cfg.initEnemyCount ==> forall j :: 0 <= j < |enemyDraws| ==> !LandsFree(w.grid.Contents(), enemyDraws[j])
  {
    var g := new Grid(cfg.rows, cfg.cols);
    w := new World([], [], [], g);
    var half := cfg.rows / 2;
    var hs := InitCharacter(w, cfg.initHeroCount, 0, half, HeroSide, bulletTexture, heroDraws);
    assert w.heroes == hs;
    ghost var heroCells := Positions(hs);
    ghost var mid := w.grid.Contents();
    assert mid == MarkAll(Empty(cfg.rows, cfg.cols), heroCells);
    label heroesPlaced:
    var es := PlaceEnemies(w, cfg.initEnemyCount, half, cfg.rows, bulletTexture, enemyDraws);
    PositionsKept@heroesPlaced(hs);
    assert Positions(w.heroes) == heroCells;
    assert w.grid.Contents() == MarkAll(mid, Positions(w.enemies));
  }

  /**
   * The GameController constructor: when any of the four parts is missing,
   * a new game (initGame); otherwise a game over the given parts.
   */
  method NewGame(cfg: Config, heroes: Option<seq<Character>>, enemies: Option<seq<Character>>,
                 bullets: Option<seq<Bullet>>, grid: Option<Grid>, bulletTexture: Texture,
                 heroDraws: seq<(int, int)>, enemyDraws: seq<(int, int)>) returns (w: World)
    requires cfg.rows >= 0 && cfg.cols >= 0
    requires forall k :: 0 <= k < |heroDraws| ==> 0 <= heroDraws[k].0 < cfg.rows / 2
    requires forall k :: 0 <= k < |enemyDraws| ==> cfg.rows / 2 <= enemyDraws[k].0 < cfg.rows
    ensures fresh(w) && w.observers == []
    ensures heroes.Some? && enemies.Some? && bullets.Some? && grid.Some? ==>
              w.heroes == heroes.value && w.enemies == enemies.value && w.bullets == bullets.value && w.grid == grid.value
    ensures heroes.None? || enemies.None? || bullets.None? || grid.None? ==>
              && fresh(w.grid) && w.Valid() && w.bullets == []
              && w.grid.rows == cfg.rows && w.grid.cols == cfg.cols
              && (|w.heroes| <= cfg.initHeroCount || w.heroes == [])
              && (|w.enemies| <= cfg.initEnemyCount || w.enemies == [])
              && LinedUp(w.heroes, HeroSide, 0, cfg.rows / 2 * CELL_SIZE)
              && LinedUp(w.enemies, EnemySide, cfg.rows / 2 * CELL_SIZE, cfg.rows * CELL_SIZE)
              && w.grid.Contents() == MarkAll(MarkAll(Empty(cfg.rows, cfg.cols), Positions(w.heroes)), Positions(w.enemies))
              && AllRead(w.grid.Contents(), Positions(w.heroes), TAKEN) && AllRead(w.grid.Contents(), Positions(w.enemies), TAKEN)
              && Positions(w.heroes) == Placements(Empty(cfg.rows, cfg.cols), heroDraws, 0, cfg.initHeroCount)
              && Positions(w.enemies) == Placements(MarkAll(Empty(cfg.rows, cfg.cols), Positions(w.heroes)), enemyDraws, 0, cfg.initEnemyCount)
              && (|w.heroes| < cfg.initHeroCount ==>
                    forall j :: 0 <= j < |heroDraws| ==> !LandsFree(MarkAll(Empty(cfg.rows, cfg.cols), Positions(w.heroes)), heroDraws[j]))
              && (|w.enemies| < cfg.initEnemyCount ==> forall j :: 0 <= j < |enemyDraws| ==> !LandsFree(w.grid.Contents(), enemyDraws[j]))
  {
    if heroes.None? || enemies.None? || bullets.None? || grid.None? {
      w := InitGame(cfg, bulletTexture, heroDraws, enemyDraws);
    } else {
      w := new World(heroes.value, enemies.value, bullets.value, grid.value);
    }
  }
}
