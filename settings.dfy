/**
 * The game's settings: the fixed constants and the mutable board size that
 * the settings screen changes (com.mygdx.config.Config).
 *
 * The source keeps sizes as float statics; every value it ever stores is a
 * whole number, so the model uses int and writes Java's float-to-int casts out.
 */
module Settings {
  const CELL_SIZE: int := 32
  const DEFAULT_ROWS: int := 10
  const DEFAULT_COLS: int := 10
  const HERO_HP: int := 100
  const HERO_ATK: int := 10
  const ENEMY_HP: int := 100
  const ENEMY_ATK: int := 10
  const INTERVAL_MILLI: int := 2000
  const CAMERA_MARGIN: int := 100

  /** Java's `(int) ((rows + cols) / 4)`: the quotient truncated toward zero. */
  function PerSideCount(rows: int, cols: int): (n: int)
    ensures rows + cols >= 0 ==> 0 <= n && 0 <= rows + cols - 4 * n < 4
    ensures rows + cols < 0 ==> n <= 0 && -4 < rows + cols - 4 * n <= 0
  {
    var sum := rows + cols;
    if sum >= 0 then sum / 4 else -((-sum) / 4)
  }

  /** The static fields of Config that depend on the board size. */
  class Config {
    var rows: int
    var cols: int
    var cameraWidth: int
    var cameraHeight: int
    var initHeroCount: int
    var initEnemyCount: int
    var mapWidth: int
    var mapHeight: int

    /** Every derived field agrees with rows and cols. */
    ghost predicate Consistent()
      reads this
    {
      && cameraWidth == rows * CELL_SIZE + CAMERA_MARGIN
      && cameraHeight == cols * CELL_SIZE
      && initHeroCount == PerSideCount(rows, cols)
      && initEnemyCount == PerSideCount(rows, cols)
      && mapWidth == rows * CELL_SIZE
      && mapHeight == cols * CELL_SIZE
    }

    /** The static initialisers: a 10 by 10 board with five characters a side. */
    constructor ()
      ensures Consistent()
      ensures rows == DEFAULT_ROWS && cols == DEFAULT_COLS
      ensures initHeroCount == 5 && initEnemyCount == 5
      ensures mapWidth == 320 && mapHeight == 320 && cameraWidth == 420
    {
      rows, cols := DEFAULT_ROWS, DEFAULT_COLS;
      cameraWidth := DEFAULT_ROWS * CELL_SIZE + CAMERA_MARGIN;
      cameraHeight := DEFAULT_COLS * CELL_SIZE;
      initHeroCount := PerSideCount(DEFAULT_ROWS, DEFAULT_COLS);
      initEnemyCount := PerSideCount(DEFAULT_ROWS, DEFAULT_COLS);
      mapWidth := DEFAULT_ROWS * CELL_SIZE;
      mapHeight := DEFAULT_COLS * CELL_SIZE;
    }

    /** Config.changeConfig: overwrites the size and recomputes everything derived from it. */
    method ChangeConfig(newRows: int, newCols: int)
      modifies this
      ensures rows == newRows && cols == newCols
      ensures Consistent()
    {
      rows := newRows;
      cols := newCols;
      cameraWidth := rows * CELL_SIZE + CAMERA_MARGIN;
      cameraHeight := cols * CELL_SIZE;
      initHeroCount := PerSideCount(rows, cols);
      initEnemyCount := PerSideCount(rows, cols);
      mapWidth := rows * CELL_SIZE;
      mapHeight := cols * CELL_SIZE;
    }
  }
}
