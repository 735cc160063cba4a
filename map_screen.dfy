/**
 * The settings screen's Apply button (com.mygdx.game.ChangeMapScreen): it
 * parses the two text fields and changes the board size only when both are
 * accepted.
 */
module MapScreen {
  import opened Outcomes
  import opened Settings
  import opened Text

  /** ChangeMapScreen.isValidInput. */
  predicate IsValidInput(v: int)
  {
    v >= 6 && v <= 12 && v % 2 == 0
  }

  /** The accepted sizes are exactly 6, 8, 10 and 12. */
  lemma ValidInputs(v: int)
    ensures IsValidInput(v) <==> v in {6, 8, 10, 12}
  {
  }

  /**
   * For every accepted size both sides get between 3 and 6 characters, and
   * each half of the board (rows / 2 columns of cols cells) has more cells
   * than characters, so the spawn loop can always find a free cell.
   */
  lemma AcceptedSizeFitsCharacters(rows: int, cols: int)
    requires IsValidInput(rows) && IsValidInput(cols)
    ensures 3 <= PerSideCount(rows, cols) <= 6
    ensures PerSideCount(rows, cols) < (rows / 2) * cols
  {
    assert rows / 2 >= 3;
    assert (rows / 2) * cols >= 3 * cols by {
      assert cols >= 0;
    }
  }

  /** The dialog the screen shows after Apply. */
  datatype Notice = Applied | InvalidSize | NotANumber

  /**
   * The Apply listener: rows are parsed first, then cols; a parse failure
   * shows the number error, two parsed values that are not both accepted show
   * the size error, and only an accepted pair changes the settings.
   */
  method Apply(cfg: Config, rowsText: string, colsText: string) returns (notice: Notice)
    modifies cfg
    ensures notice == NotANumber <==> ParseInt(rowsText).None? || ParseInt(colsText).None?
    ensures notice == Applied <==>
              ParseInt(rowsText).Some? && ParseInt(colsText).Some?
              && IsValidInput(ParseInt(rowsText).value) && IsValidInput(ParseInt(colsText).value)
    ensures notice == Applied ==>
              cfg.rows == ParseInt(rowsText).value && cfg.cols == ParseInt(colsText).value && cfg.Consistent()
    ensures notice != Applied ==> unchanged(cfg)
  {
    var rows := ParseInt(rowsText);
    if rows.None? {
      return NotANumber;
    }
    var cols := ParseInt(colsText);
    if cols.None? {
      return NotANumber;
    }
    if IsValidInput(rows.value) && IsValidInput(cols.value) {
      cfg.ChangeConfig(rows.value, cols.value);
      notice := Applied;
    } else {
      notice := InvalidSize;
    }
  }
}
