/** Constants and enumerations of the game (the source's class `Game`). */
module Game {

  /** Number of cells in a row of the square board. */
  const SIZE: nat := 3
  /** Number of cells on the board, SIZE * SIZE. */
  const CELLS: nat := 9

  // Cell types (the marker occupying a cell).
  const CELL_EMPTY: int := 0
  const CELL_X: int := 1
  const CELL_O: int := 2

  // Scores of the minimax search, and the sentinels its accumulators start from.
  const SCORE_WIN: int := 10
  const SCORE_LOSS: int := -10
  const SCORE_DRAW: int := 0
  const SCORE_MAX: int := 10000
  const SCORE_MIN: int := -10000

  /** A cell type the board may hold. */
  predicate IsCellType(c: int) {
    c == CELL_EMPTY || c == CELL_X || c == CELL_O
  }

  /** A marker a player can own. */
  predicate IsPlayerCellType(c: int) {
    c == CELL_X || c == CELL_O
  }

  /** A value the minimax search can assign to a position. */
  predicate IsScore(s: int) {
    s == SCORE_LOSS || s == SCORE_DRAW || s == SCORE_WIN
  }

  /** The session state; XWin, OWin and Draw are transient classifications that
      `checkGameState` immediately collapses to GameOver. */
  datatype GameState = NotStarted | InProgress | XWin | OWin | Draw | GameOver

  /** Who is playing a seat. */
  datatype PlayerType = Robot | Human

  /** Robot level. */
  datatype Level = Easy | Medium | Hard

  datatype Option<T> = None | Some(value: T)
}
