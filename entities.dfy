/**
 * The things on the board (com.mygdx.entity, com.mygdx.character,
 * com.mygdx.bullet): characters and bullets with a position, health and
 * attack, and what each does on its own.
 *
 * Java's Entity is a base class; here its fields and operations are written
 * into each of the two classes that extend it. Positions are whole pixels.
 */
module Entities {
  import opened Outcomes
  import opened Settings
  import opened Occupancy
  import opened Lists

  /** Entity.isDead: no health left. */
  predicate Dead(hp: int) { hp <= 0 }

  datatype Side = HeroSide | EnemySide

  /** The size of a sprite's texture, in pixels. */
  datatype Texture = Texture(width: int, height: int)

  /** The health every bullet starts with. */
  const BULLET_HP: int := 99

  /** The hp attackMinHp starts from: only characters below it can be chosen. */
  const NO_TARGET_HP: int := 999999

  /** A hero or an enemy: the Entity fields plus what Character, Hero and Enemy add. */
  class Character {
    var x: int
    var y: int
    var hp: int
    var atk: int
    var id: string
    /** Hero.isAI: whether the hero acts on its own (enemies always do). */
    var isAI: bool
    const side: Side
    const bulletTexture: Texture

    /** The Entity constructor, with Hero's default of acting on its own. */
    constructor (x: int, y: int, hp: int, atk: int, side: Side, bulletTexture: Texture)
      ensures this.x == x && this.y == y && this.hp == hp && this.atk == atk
      ensures this.side == side && this.bulletTexture == bulletTexture
      ensures isAI && id == ""
    {
      this.x, this.y, this.hp, this.atk := x, y, hp, atk;
      this.side, this.bulletTexture := side, bulletTexture;
      isAI, id := true, "";
    }

    method SetX(v: int)
      modifies this`x
      ensures x == v
    {
      x := v;
    }

    method SetY(v: int)
      modifies this`y
      ensures y == v
    {
      y := v;
    }

    /** Entity.move: setX then setY. */
    method Move(newX: int, newY: int)
      modifies this`x, this`y
      ensures x == newX && y == newY
    {
      SetX(newX);
      SetY(newY);
    }

    /** Entity.setHp: stores the value as given, negative included. */
    method SetHp(v: int)
      modifies this`hp
      ensures hp == v
    {
      hp := v;
    }

    method SetAtk(v: int)
      modifies this`atk
      ensures atk == v
    {
      atk := v;
    }

    method SetId(v: string)
      modifies this`id
      ensures id == v
    {
      id := v;
    }

    method SetAI(v: bool)
      modifies this`isAI
      ensures isAI == v
    {
      isAI := v;
    }

    predicate IsDead()
      reads this
    {
      Dead(hp)
    }

    /**
     * Character.randomMove: one step in the drawn direction (dir is
     * MathUtils.random(4), so 0 to 4), taken only onto a free cell that stays
     * in the character's half of the board (the greater half for enemies);
     * the old cell is freed, the new one taken.
     */
    method RandomMove(grid: Grid, greaterHalf: bool, dir: int) returns (moved: bool)
      requires grid.Valid() && 0 <= dir <= 4
      modifies this`x, this`y, grid, grid.matrix
      ensures grid.Valid()
      ensures var nx, ny := old(x) + Step(dir).0 * CELL_SIZE, old(y) + Step(dir).1 * CELL_SIZE;
              && moved == (old(grid.Contents()).Read(nx, ny) == FREE && HalfAllows(grid.rows, nx, greaterHalf))
              && (moved ==> x == nx && y == ny
                            && grid.Contents() == old(grid.Contents()).Write(old(x), old(y), FREE).Write(nx, ny, TAKEN))
              && (!moved ==> x == old(x) && y == old(y) && grid.Contents() == old(grid.Contents()))
      ensures old(grid.Contents()).Read(old(x), old(y)) == TAKEN ==> grid.Contents().Read(x, y) == TAKEN
    {
      var (dx, dy) := Step(dir);
      var nx, ny := x + dx * CELL_SIZE, y + dy * CELL_SIZE;
      var v := grid.Get(nx, ny);
      if v == FREE && HalfAllows(grid.rows, nx, greaterHalf) {
        ghost var before := grid.Contents();
        grid.Set(x, y, FREE);
        grid.Set(nx, ny, TAKEN);
        ReadAfterWrite(before.Write(x, y, FREE), nx, ny, TAKEN, nx, ny);
        Move(nx, ny);
        moved := true;
      } else {
        moved := false;
      }
    }
  }

  /** Every field but hp is as before: all a bullet may change in a character. */
  twostate predicate HpOnlyChanged(c: Character)
    reads c
  {
    c.x == old(c.x) && c.y == old(c.y) && c.atk == old(c.atk) && c.id == old(c.id) && c.isAI == old(c.isAI)
  }

  /** The dirs table of Character. */
  const DIRS: seq<int> := [0, 0, 1, 0, -1, 0]

  /** The step randomMove takes for a draw: dirs[dir] cells across, dirs[dir + 1] down. */
  function Step(dir: int): (int, int)
    requires 0 <= dir <= 4
  {
    (DIRS[dir], DIRS[dir + 1])
  }

  /** The five draws: stay, down, right, up, left; never a diagonal. */
  lemma StepTable()
    ensures Step(0) == (0, 0) && Step(1) == (0, 1) && Step(2) == (1, 0) && Step(3) == (0, -1) && Step(4) == (-1, 0)
  {
  }

  /**
   * `x / CELL_SIZE >= ROWS / 2` (greater half) or `x / CELL_SIZE < ROWS / 2`
   * (lesser half), compared exactly as the source's float division does.
   */
  predicate HalfAllows(rows: int, x: int, greaterHalf: bool)
  {
    if greaterHalf then 2 * x >= rows * CELL_SIZE else 2 * x < rows * CELL_SIZE
  }

  /** On a cell corner the half test compares the column with half the rows, odd rows included. */
  lemma HalfOfColumn(rows: int, col: int, greaterHalf: bool)
    ensures HalfAllows(rows, col * CELL_SIZE, greaterHalf) <==> if greaterHalf then 2 * col >= rows else 2 * col < rows
  {
    assert 2 * (col * CELL_SIZE) - rows * CELL_SIZE == (2 * col - rows) * CELL_SIZE;
  }

  // ---------------------------------------------------------------- choosing a target

  /** attackMinHp's test for a candidate: alive and below the current minimum. */
  predicate Eligible(hp: int) { !Dead(hp) && hp < NO_TARGET_HP }

  /**
   * targets[k] is the one attackMinHp picks: eligible, no living character
   * has less health, and every eligible one before it has strictly more.
   */
  ghost predicate IsMinHpChoice(targets: seq<Character>, k: int)
    reads set c | c in targets
  {
    && 0 <= k < |targets| && Eligible(targets[k].hp)
    && (forall i :: 0 <= i < |targets| && !Dead(targets[i].hp) ==> targets[k].hp <= targets[i].hp)
    && (forall i :: 0 <= i < k && Eligible(targets[i].hp) ==> targets[i].hp > targets[k].hp)
  }

  ghost predicate NoneEligible(targets: seq<Character>)
    reads set c | c in targets
  {
    forall i :: 0 <= i < |targets| ==> !Eligible(targets[i].hp)
  }

  /** At most one position is the choice. */
  lemma MinHpChoiceUnique(targets: seq<Character>, a: int, b: int)
    requires IsMinHpChoice(targets, a) && IsMinHpChoice(targets, b)
    ensures a == b
  {
  }

  /** The search loop of Character.attackMinHp: the living character with least health, first on ties. */
  method MinHpTarget(targets: seq<Character>) returns (choice: Option<nat>)
    ensures choice.None? <==> NoneEligible(targets)
    ensures choice.Some? ==> IsMinHpChoice(targets, choice.value)
  {
    var minHp := NO_TARGET_HP;
    choice := None;
    var i := 0;
    while i < |targets|
      invariant 0 <= i <= |targets|
      invariant choice.None? ==> minHp == NO_TARGET_HP && forall k :: 0 <= k < i ==> !Eligible(targets[k].hp)
      invariant choice.Some? ==>
                  && choice.value < i && minHp == targets[choice.value].hp && Eligible(minHp)
                  && (forall k :: 0 <= k < i && !Dead(targets[k].hp) ==> minHp <= targets[k].hp)
                  && (forall k :: 0 <= k < choice.value && Eligible(targets[k].hp) ==> targets[k].hp > minHp)
    {
      var c := targets[i];
      if c.hp < minHp && !c.IsDead() {
        minHp := c.hp;
        choice := Some(i);
      }
      i := i + 1;
    }
  }

  // ---------------------------------------------------------------- bullets

  /** A bullet hits a character that is alive and overlaps it. */
  predicate Strikes(targetHp: int, touching: bool) { !Dead(targetHp) && touching }

  /**
   * The centre (x + width / 2, y + height / 2) is outside
   * [0, mapWidth] x [0, mapHeight]; a centre on the edge is inside.
   * Doubled so that half a texture stays a whole number.
   */
  predicate CentreOffMap(x: int, y: int, t: Texture, mapWidth: int, mapHeight: int)
  {
    var cx2, cy2 := 2 * x + t.width, 2 * y + t.height;
    cx2 < 0 || cx2 > 2 * mapWidth || cy2 < 0 || cy2 > 2 * mapHeight
  }

  /** The positions BulletTest checks are off a map of at least one cell, for any small texture. */
  lemma OffMapPositions(t: Texture, mapWidth: int, mapHeight: int)
    requires 0 < t.width < 2 * CELL_SIZE && 0 < t.height < 2 * CELL_SIZE
    requires mapWidth >= CELL_SIZE && mapHeight >= CELL_SIZE
    ensures CentreOffMap(-CELL_SIZE, 1, t, mapWidth, mapHeight)
    ensures CentreOffMap(1, -CELL_SIZE, t, mapWidth, mapHeight)
    ensures CentreOffMap(1, mapHeight, t, mapWidth, mapHeight)
    ensures CentreOffMap(mapWidth, 1, t, mapWidth, mapHeight)
    ensures !CentreOffMap(0, 0, t, mapWidth, mapHeight)
  {
  }

  class Bullet {
    var x: int
    var y: int
    var hp: int
    var atk: int
    const speedX: int
    const speedY: int
    const rotation: int
    const texture: Texture

    /** The Bullet constructor: an entity with 99 health and the given attack, speed and heading. */
    constructor (x: int, y: int, atk: int, speedX: int, speedY: int, rotation: int, texture: Texture)
      ensures this.x == x && this.y == y && this.atk == atk && hp == BULLET_HP
      ensures this.speedX == speedX && this.speedY == speedY && this.rotation == rotation
      ensures this.texture == texture
    {
      this.x, this.y, this.atk, hp := x, y, atk, BULLET_HP;
      this.speedX, this.speedY, this.rotation := speedX, speedY, rotation;
      this.texture := texture;
    }

    /** Bullet.isDead: its centre has left the map, or its health is gone. */
    predicate IsDead(mapWidth: int, mapHeight: int)
      reads this
    {
      CentreOffMap(x, y, texture, mapWidth, mapHeight) || Dead(hp)
    }

    /**
     * Bullet.update: the bullet moves by its speed, then every living
     * character it overlaps loses the bullet's attack, and a bullet that hit
     * anything drops to 0 health. Overlap is decided from the sprites, which
     * the model does not hold: `overlaps` stands for it.
     */
    method Update(targets: seq<Character>, overlaps: (Character, Bullet) -> bool)
      requires Distinct(targets)
      modifies this`x, this`y, this`hp, (set c | c in targets)
      ensures x == old(x) + speedX && y == old(y) + speedY
      ensures forall k :: 0 <= k < |targets| ==>
                targets[k].hp == old(targets[k].hp) - (if Strikes(old(targets[k].hp), overlaps(targets[k], this)) then atk else 0)
      ensures forall c :: c in targets ==> HpOnlyChanged(c)
      ensures hp == if exists k :: 0 <= k < |targets| && Strikes(old(targets[k].hp), overlaps(targets[k], this))
                    then 0 else old(hp)
    {
      x, y := x + speedX, y + speedY;
      var i := 0;
      while i < |targets|
        invariant 0 <= i <= |targets|
        invariant x == old(x) + speedX && y == old(y) + speedY
        invariant forall k :: 0 <= k < i ==>
                    targets[k].hp == old(targets[k].hp) - (if Strikes(old(targets[k].hp), overlaps(targets[k], this)) then atk else 0)
        invariant forall k :: i <= k < |targets| ==> targets[k].hp == old(targets[k].hp)
        invariant forall c :: c in targets ==> HpOnlyChanged(c)
        invariant hp == if exists k :: 0 <= k < i && Strikes(old(targets[k].hp), overlaps(targets[k], this))
                        then 0 else old(hp)
      {
        var c := targets[i];
        if !c.IsDead() && overlaps(c, this) {
          c.SetHp(c.hp - atk);
          hp := 0;
        }
        i := i + 1;
      }
    }
  }

  /**
   * What one Bullet.update does to health: each target it strikes loses the
   * bullet's attack, the others keep theirs, and the bullet drops to 0
   * health exactly when it struck something.
   */
  twostate predicate Struck(b: Bullet, targets: seq<Character>, overlaps: (Character, Bullet) -> bool)
    reads b, set c | c in targets
  {
    && (forall k :: 0 <= k < |targets| ==>
          targets[k].hp == old(targets[k].hp) - (if Strikes(old(targets[k].hp), overlaps(targets[k], b)) then b.atk else 0))
    && b.hp == if exists k :: 0 <= k < |targets| && Strikes(old(targets[k].hp), overlaps(targets[k], b))
               then 0 else old(b.hp)
  }
}
