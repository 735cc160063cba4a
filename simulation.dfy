/**
 * What the characters and bullets do on each tick (Character.attack and
 * attackMinHp, Hero.update and run, Enemy.update and run, BulletUpdater.run),
 * acting on the shared World.
 *
 * The draw of MathUtils.random(4) is the `dir` parameter; the trajectory that
 * atan2, cosDeg and sinDeg compute is the `aim` parameter; sprite overlap is
 * the `overlaps` parameter.
 */
module Simulation {
  import opened Outcomes
  import opened Settings
  import opened Occupancy
  import opened Lists
  import opened Events
  import opened Entities
  import opened GameWorld

  /** A bullet's speed along each axis and its heading in degrees. */
  datatype Heading = Heading(speedX: int, speedY: int, rotation: int)

  /** The trajectory for an offset from the shooter to the aim point. */
  type Aim = (int, int) -> Heading

  /** Half a cell: a shot leaves from the centre of the shooter's cell. */
  const HALF_CELL: int := CELL_SIZE / 2

  /**
   * b is the bullet a shooter with corner (x0, y0), attack atk and bullet
   * texture t fires at (x, y): it starts half a cell in from the corner,
   * carries the attack and the texture, has full bullet health, and flies
   * along the trajectory for the offset from the corner to the aim point.
   */
  ghost predicate ShotFrom(b: Bullet, x0: int, y0: int, atk: int, t: Texture, x: int, y: int, aim: Aim)
    reads b
  {
    && b.x == x0 + HALF_CELL && b.y == y0 + HALF_CELL
    && b.atk == atk && b.hp == BULLET_HP && b.texture == t
    && b.speedX == aim(x - x0, y - y0).speedX
    && b.speedY == aim(x - x0, y - y0).speedY
    && b.rotation == aim(x - x0, y - y0).rotation
  }

  /** b is the bullet c fires, from where c stands now, at (x, y). */
  ghost predicate ShotAt(b: Bullet, c: Character, x: int, y: int, aim: Aim)
    reads b, c
  {
    ShotFrom(b, c.x, c.y, c.atk, c.bulletTexture, x, y, aim)
  }

  /**
   * The random step of a computer-driven character from (x0, y0) to
   * (x1, y1), the board going from start to now: taken exactly when the
   * cell in direction dir reads free and lies in the character's half; then
   * the old cell is freed and the new one taken, otherwise nothing changes.
   */
  ghost predicate Wandered(x0: int, y0: int, x1: int, y1: int, start: Board, now: Board,
                           rows: int, greaterHalf: bool, dir: int, moved: bool)
    requires start.Shaped() && 0 <= dir <= 4
  {
    var nx, ny := x0 + Step(dir).0 * CELL_SIZE, y0 + Step(dir).1 * CELL_SIZE;
    && moved == (start.Read(nx, ny) == FREE && HalfAllows(rows, nx, greaterHalf))
    && (moved ==> x1 == nx && y1 == ny && now == start.Write(x0, y0, FREE).Write(nx, ny, TAKEN))
    && (!moved ==> x1 == x0 && y1 == y0 && now == start)
  }

  /** Character.attack(x, y, bullets): one new bullet at the end of the list, aimed at (x, y). */
  method Attack(c: Character, w: World, x: int, y: int, aim: Aim) returns (b: Bullet)
    requires w.Valid()
    modifies w`bullets
    ensures w.Valid()
    ensures fresh(b) && ShotAt(b, c, x, y, aim)
    ensures w.bullets == old(w.bullets) + [b]
  {
    var h := aim(x - c.x, y - c.y);
    b := new Bullet(c.x + HALF_CELL, c.y + HALF_CELL, c.atk, h.speedX, h.speedY, h.rotation, c.bulletTexture);
    w.bullets := w.bullets + [b];
  }

  /** Character.attack(enemy, bullets): a shot at the centre of the target's cell. */
  method AttackCharacter(c: Character, target: Character, w: World, aim: Aim) returns (b: Bullet)
    requires w.Valid()
    modifies w`bullets
    ensures w.Valid()
    ensures fresh(b) && ShotAt(b, c, target.x + HALF_CELL, target.y + HALF_CELL, aim)
    ensures w.bullets == old(w.bullets) + [b]
  {
    b := Attack(c, w, target.x + HALF_CELL, target.y + HALF_CELL, aim);
  }

  /**
   * Character.attackMinHp: a shot at the living target with least health
   * (the first of equals), or no shot when none is eligible.
   */
  method AttackMinHp(c: Character, w: World, targets: seq<Character>, aim: Aim) returns (choice: Option<nat>)
    requires w.Valid()
    modifies w`bullets
    ensures w.Valid()
    ensures choice.None? <==> NoneEligible(targets)
    ensures choice.None? ==> w.bullets == old(w.bullets)
    ensures choice.Some? ==>
              && IsMinHpChoice(targets, choice.value)
              && |w.bullets| == |old(w.bullets)| + 1
              && w.bullets[..|old(w.bullets)|] == old(w.bullets)
              && fresh(w.bullets[|old(w.bullets)|])
              && ShotAt(w.bullets[|old(w.bullets)|], c,
                        targets[choice.value].x + HALF_CELL, targets[choice.value].y + HALF_CELL, aim)
  {
    choice := MinHpTarget(targets);
    if choice.Some? {
      var b := AttackCharacter(c, targets[choice.value], w, aim);
      assert w.bullets[..|old(w.bullets)|] == old(w.bullets);
    }
  }

  /** Hero.update(x, y): the player's shot at a point. */
  method HeroShoot(h: Character, w: World, x: int, y: int, aim: Aim) returns (b: Bullet)
    requires w.Valid()
    modifies w`bullets
    ensures w.Valid()
    ensures fresh(b) && ShotAt(b, h, x, y, aim)
    ensures w.bullets == old(w.bullets) + [b]
  {
    b := Attack(h, w, x, y, aim);
  }

  /**
   * Hero.update(dx, dy): the player's step of one cell at most. It is taken
   * only onto a free cell in the heroes' half; the old cell is freed, the
   * new one taken, and every observer is told of the move in cells. A
   * refused step changes nothing and tells no one.
   */
  method HeroStep(h: Character, w: World, dx: int, dy: int) returns (deliveries: seq<Delivery>, ghost moved: bool)
    requires w.Valid()
    requires dx % CELL_SIZE == 0 && dy % CELL_SIZE == 0
    requires h.x % CELL_SIZE == 0 && h.y % CELL_SIZE == 0
    modifies h`x, h`y, w.grid, w.grid.matrix
    ensures w.Valid()
    ensures var nx, ny := old(h.x) + dx, old(h.y) + dy;
            && moved == (old(w.grid.Contents()).Read(nx, ny) == FREE && HalfAllows(w.grid.rows, nx, false))
            && (moved ==> h.x == nx && h.y == ny
                          && w.grid.Contents() == old(w.grid.Contents()).Write(old(h.x), old(h.y), FREE).Write(nx, ny, TAKEN)
                          && deliveries == Deliveries(w.observers, CharacterMove(dx / CELL_SIZE, dy / CELL_SIZE, h.id, HERO_MOVE)))
            && (!moved ==> h.x == old(h.x) && h.y == old(h.y) && w.grid.Contents() == old(w.grid.Contents()) && deliveries == [])
  {
    var nx, ny := h.x + dx, h.y + dy;
    var v := w.grid.GetAligned(nx, ny);
    moved := v == FREE && HalfAllows(w.grid.rows, nx, false);
    if v == FREE && HalfAllows(w.grid.rows, nx, false) {
      w.grid.SetAligned(h.x, h.y, FREE);
      w.grid.SetAligned(nx, ny, TAKEN);
      h.Move(nx, ny);
      var r := w.NotifyObservers(CharacterMove(dx / CELL_SIZE, dy / CELL_SIZE, h.id, HERO_MOVE));
      deliveries := r.value;
    } else {
      deliveries := [];
    }
  }

  /** The random step of a computer-driven character, the board kept free-or-taken. */
  method Wander(c: Character, w: World, greaterHalf: bool, dir: int) returns (moved: bool)
    requires w.Valid() && 0 <= dir <= 4
    modifies c`x, c`y, w.grid, w.grid.matrix
    ensures w.Valid()
    ensures Wandered(old(c.x), old(c.y), c.x, c.y, old(w.grid.Contents()), w.grid.Contents(),
                     w.grid.rows, greaterHalf, dir, moved)
  {
    ghost var before := w.grid.Contents();
    var (sx, sy) := Step(dir);
    BinaryReadsAndWrites(before, c.x, c.y, FREE);
    BinaryReadsAndWrites(before.Write(c.x, c.y, FREE), c.x + sx * CELL_SIZE, c.y + sy * CELL_SIZE, TAKEN);
    moved := c.RandomMove(w.grid, greaterHalf, dir);
  }

  /**
   * One turn of a computer-driven character (Hero.update() with the enemies
   * as targets and the lesser half, Enemy.update() with the heroes and the
   * greater half): a shot at the weakest target, then a random step.
   */
  method Act(c: Character, w: World, targets: seq<Character>, greaterHalf: bool, dir: int, aim: Aim)
    returns (choice: Option<nat>, moved: bool)
    requires w.Valid() && 0 <= dir <= 4
    modifies w`bullets, c`x, c`y, w.grid, w.grid.matrix
    ensures w.Valid()
    ensures choice.None? <==> NoneEligible(targets)
    ensures choice.None? ==> w.bullets == old(w.bullets)
    ensures choice.Some? ==>
              && IsMinHpChoice(targets, choice.value)
              && |w.bullets| == |old(w.bullets)| + 1
              && w.bullets[..|old(w.bullets)|] == old(w.bullets)
              && fresh(w.bullets[|old(w.bullets)|])
              && ShotFrom(w.bullets[|old(w.bullets)|], old(c.x), old(c.y), c.atk, c.bulletTexture,
                          old(targets[choice.value].x) + HALF_CELL, old(targets[choice.value].y) + HALF_CELL, aim)
    ensures Wandered(old(c.x), old(c.y), c.x, c.y, old(w.grid.Contents()), w.grid.Contents(),
                     w.grid.rows, greaterHalf, dir, moved)
  {
    ghost var board, x0, y0 := w.grid.Contents(), c.x, c.y;
    choice := AttackMinHp(c, w, targets, aim);
    assert w.grid.Contents() == board && c.x == x0 && c.y == y0;
    moved := Wander(c, w, greaterHalf, dir);
    if choice.Some? {
      assert ShotFrom(w.bullets[|old(w.bullets)|], x0, y0, c.atk, c.bulletTexture,
                      old(targets[choice.value].x) + HALF_CELL, old(targets[choice.value].y) + HALF_CELL, aim);
    }
  }

  /**
   * Hero.run: a hero acts only when it is computer-driven and alive, and
   * then takes the turn of Act against the enemies within the lesser half.
   */
  method HeroRun(h: Character, w: World, dir: int, aim: Aim) returns (acted: bool, choice: Option<nat>, moved: bool)
    requires w.Valid() && 0 <= dir <= 4
    modifies w`bullets, h`x, h`y, w.grid, w.grid.matrix
    ensures w.Valid()
    ensures acted <==> old(h.isAI) && !Dead(old(h.hp))
    ensures !acted ==> w.bullets == old(w.bullets) && h.x == old(h.x) && h.y == old(h.y)
                       && w.grid.Contents() == old(w.grid.Contents())
    ensures acted ==>
              && (choice.None? <==> NoneEligible(w.enemies))
              && (choice.None? ==> w.bullets == old(w.bullets))
              && (choice.Some? ==>
                    && IsMinHpChoice(w.enemies, choice.value)
                    && |w.bullets| == |old(w.bullets)| + 1
                    && w.bullets[..|old(w.bullets)|] == old(w.bullets)
                    && fresh(w.bullets[|old(w.bullets)|])
                    && ShotFrom(w.bullets[|old(w.bullets)|], old(h.x), old(h.y), h.atk, h.bulletTexture,
                                old(w.enemies[choice.value].x) + HALF_CELL, old(w.enemies[choice.value].y) + HALF_CELL, aim))
              && Wandered(old(h.x), old(h.y), h.x, h.y, old(w.grid.Contents()), w.grid.Contents(),
                          w.grid.rows, false, dir, moved)
  {
    acted := h.isAI && !h.IsDead();
    choice, moved := None, false;
    if acted {
      choice, moved := Act(h, w, w.enemies, false, dir, aim);
    }
  }

  /**
   * Enemy.run: an enemy acts whenever it is alive, and then takes the turn
   * of Act against the heroes within the greater half.
   */
  method EnemyRun(e: Character, w: World, dir: int, aim: Aim) returns (acted: bool, choice: Option<nat>, moved: bool)
    requires w.Valid() && 0 <= dir <= 4
    modifies w`bullets, e`x, e`y, w.grid, w.grid.matrix
    ensures w.Valid()
    ensures acted <==> !Dead(old(e.hp))
    ensures !acted ==> w.bullets == old(w.bullets) && e.x == old(e.x) && e.y == old(e.y)
                       && w.grid.Contents() == old(w.grid.Contents())
    ensures acted ==>
              && (choice.None? <==> NoneEligible(w.heroes))
              && (choice.None? ==> w.bullets == old(w.bullets))
              && (choice.Some? ==>
                    && IsMinHpChoice(w.heroes, choice.value)
                    && |w.bullets| == |old(w.bullets)| + 1
                    && w.bullets[..|old(w.bullets)|] == old(w.bullets)
                    && fresh(w.bullets[|old(w.bullets)|])
                    && ShotFrom(w.bullets[|old(w.bullets)|], old(e.x), old(e.y), e.atk, e.bulletTexture,
                                old(w.heroes[choice.value].x) + HALF_CELL, old(w.heroes[choice.value].y) + HALF_CELL, aim))
              && Wandered(old(e.x), old(e.y), e.x, e.y, old(w.grid.Contents()), w.grid.Contents(),
                          w.grid.rows, true, dir, moved)
  {
    acted := !e.IsDead();
    choice, moved := None, false;
    if acted {
      choice, moved := Act(e, w, w.heroes, true, dir, aim);
    }
  }

  // ---------------------------------------------------------------- the bullet pass

  /** BulletUpdater's choice: a bullet heading beyond 90 degrees either way flies at the heroes. */
  predicate TargetsHeroes(rotation: int) { rotation > 90 || rotation < -90 }

  /**
   * The body BulletUpdater.run gives each bullet: it flies at the heroes when
   * heading beyond 90 degrees either way, at the enemies otherwise.
   */
  method Fly(b: Bullet, heroes: seq<Character>, enemies: seq<Character>, overlaps: (Character, Bullet) -> bool)
    requires Distinct(heroes) && Distinct(enemies)
    modifies b`x, b`y, b`hp, (set c | c in heroes), (set c | c in enemies)
    ensures b.x == old(b.x) + b.speedX && b.y == old(b.y) + b.speedY
    ensures forall c :: c in heroes || c in enemies ==> HpOnlyChanged(c)
    ensures !TargetsHeroes(b.rotation) ==> forall c :: c in heroes && c !in enemies ==> c.hp == old(c.hp)
    ensures TargetsHeroes(b.rotation) ==> forall c :: c in enemies && c !in heroes ==> c.hp == old(c.hp)
    ensures TargetsHeroes(b.rotation) ==> Struck(b, heroes, overlaps)
    ensures !TargetsHeroes(b.rotation) ==> Struck(b, enemies, overlaps)
  {
    if TargetsHeroes(b.rotation) {
      b.Update(heroes, overlaps);
    } else {
      b.Update(enemies, overlaps);
    }
  }

  /**
   * The forEach of BulletUpdater.run: each bullet of the list in turn flies,
   * and the ones dead afterwards are collected.
   */
  method FlyAll(all: seq<Bullet>, heroes: seq<Character>, enemies: seq<Character>,
                overlaps: (Character, Bullet) -> bool, width: int, height: int) returns (dead: seq<Bullet>)
    requires Distinct(all) && Distinct(heroes) && Distinct(enemies)
    modifies (set b | b in all), (set c | c in heroes), (set c | c in enemies)
    ensures forall b :: b in all ==> b.x == old(b.x) + b.speedX && b.y == old(b.y) + b.speedY
    ensures forall b :: b in dead <==> b in all && b.IsDead(width, height)
    ensures forall c :: c in heroes || c in enemies ==> HpOnlyChanged(c)
    ensures (forall b :: b in all ==> !TargetsHeroes(b.rotation)) ==>
              forall c :: c in heroes && c !in enemies ==> c.hp == old(c.hp)
    ensures (forall b :: b in all ==> TargetsHeroes(b.rotation)) ==>
              forall c :: c in enemies && c !in heroes ==> c.hp == old(c.hp)
  {
    dead := [];
    var i := 0;
    while i < |all|
      invariant 0 <= i <= |all|
      invariant forall k :: 0 <= k < i ==> all[k].x == old(all[k].x) + all[k].speedX && all[k].y == old(all[k].y) + all[k].speedY
      invariant forall k :: i <= k < |all| ==> all[k].x == old(all[k].x) && all[k].y == old(all[k].y)
      invariant forall b :: b in dead <==> b in all[..i] && b.IsDead(width, height)
      invariant forall c :: c in heroes || c in enemies ==> HpOnlyChanged(c)
      invariant (forall k :: 0 <= k < i ==> !TargetsHeroes(all[k].rotation)) ==>
                  forall c :: c in heroes && c !in enemies ==> c.hp == old(c.hp)
      invariant (forall k :: 0 <= k < i ==> TargetsHeroes(all[k].rotation)) ==>
                  forall c :: c in enemies && c !in heroes ==> c.hp == old(c.hp)
    {
      var b := all[i];
      assert all[..i + 1] == all[..i] + [b];
      label before:
      Fly(b, heroes, enemies, overlaps);
      assert forall k :: 0 <= k < |all| && k != i ==> all[k].x == old@before(all[k].x) && all[k].y == old@before(all[k].y);
      if b.IsDead(width, height) {
        dead := dead + [b];
      }
      i := i + 1;
    }
    assert all[..i] == all;
  }

  /**
   * BulletUpdater.run: every bullet in flight, in order, moves and strikes
   * the side it flies at; then the bullets that are dead (off the map or
   * spent) are removed, the rest keeping their order. Characters change
   * only in health, and a side no bullet flies at is untouched.
   */
  method BulletPass(w: World, overlaps: (Character, Bullet) -> bool) returns (dead: seq<Bullet>)
    requires w.Valid()
    modifies w`bullets, (set b | b in w.bullets), (set c | c in w.heroes), (set c | c in w.enemies)
    ensures w.Valid()
    ensures w.heroes == old(w.heroes) && w.enemies == old(w.enemies)
    ensures forall b :: b in old(w.bullets) ==> b.x == old(b.x) + b.speedX && b.y == old(b.y) + b.speedY
    ensures forall b :: b in dead <==> b in old(w.bullets) && b.IsDead(w.grid.rows * CELL_SIZE, w.grid.cols * CELL_SIZE)
    ensures w.bullets == RemoveAll(old(w.bullets), dead)
    ensures forall b :: b in w.bullets <==> b in old(w.bullets) && !b.IsDead(w.grid.rows * CELL_SIZE, w.grid.cols * CELL_SIZE)
    ensures forall c :: c in w.heroes || c in w.enemies ==> HpOnlyChanged(c)
    ensures (forall b :: b in old(w.bullets) ==> !TargetsHeroes(b.rotation)) ==>
              forall c :: c in w.heroes && c !in w.enemies ==> c.hp == old(c.hp)
    ensures (forall b :: b in old(w.bullets) ==> TargetsHeroes(b.rotation)) ==>
              forall c :: c in w.enemies && c !in w.heroes ==> c.hp == old(c.hp)
  {
    var all := w.bullets;
    dead := FlyAll(all, w.heroes, w.enemies, overlaps, w.grid.rows * CELL_SIZE, w.grid.cols * CELL_SIZE);
    RemoveAllMembers(all, dead);
    RemoveAllKeepsDistinct(all, dead);
    w.bullets := RemoveAll(all, dead);
  }
}
