/** Players: a seat owns a marker fixed by turn order and is played by a human or a robot
    (the source's `Player`, `PlayerHuman` and `PlayerRobot`; none of their fields changes
    after construction, so a player is a value). */
module Players {
  import opened Game

  /** The marker of a seat: the first player plays X, the second O. */
  function MarkerFor(isFirst: bool): (m: int)
    ensures IsPlayerCellType(m)
    ensures m == CELL_X <==> isFirst
  {
    if isFirst then CELL_X else CELL_O
  }

  /** The other player's marker; anything but X or O has no opponent and maps to EMPTY. */
  function OppCellType(cellType: int): (r: int)
    ensures IsPlayerCellType(cellType) ==> IsPlayerCellType(r) && r != cellType
    ensures !IsPlayerCellType(cellType) ==> r == CELL_EMPTY
  {
    if cellType == CELL_X then CELL_O
    else if cellType == CELL_O then CELL_X
    else CELL_EMPTY
  }

  /** The opponent's marker is the marker of the other seat, and taking the opponent twice
      gives back the player's own marker. */
  lemma OppOfSeat(isFirst: bool)
    ensures OppCellType(MarkerFor(isFirst)) == MarkerFor(!isFirst)
    ensures OppCellType(OppCellType(MarkerFor(isFirst))) == MarkerFor(isFirst)
  {
  }

  datatype Player =
    | PlayerHuman(isFirst: bool, cellType: int)
    | PlayerRobot(isFirst: bool, cellType: int, level: Level)
  {
    /** The marker is the one turn order assigns. */
    predicate Valid() {
      cellType == MarkerFor(isFirst)
    }

    function GetPlayerType(): (t: PlayerType)
      ensures t == Robot <==> PlayerRobot?
    {
      if PlayerRobot? then Robot else Human
    }

    function GetOppPlayerCellType(): (r: int)
      requires Valid()
      ensures IsPlayerCellType(r) && r != cellType
      ensures r == MarkerFor(!isFirst)
    {
      OppCellType(cellType)
    }

    /** The label of the player's marker. */
    function GetPlayerCellTypeStr(): (s: string)
      ensures |s| == 1
      ensures s == "X" <==> cellType == CELL_X
      ensures cellType != CELL_X ==> s == "O"
    {
      if cellType == CELL_X then "X" else "O"
    }
  }

  /** `new PlayerHuman(isFirst)`; the no-argument constructor is the case isFirst = true. */
  function NewHuman(isFirst: bool): (p: Player)
    ensures p.Valid() && p.PlayerHuman? && p.isFirst == isFirst
    ensures p.cellType == CELL_X <==> isFirst
  {
    PlayerHuman(isFirst, MarkerFor(isFirst))
  }

  /** `new PlayerRobot(isFirst, level)`; the constructor without isFirst is the case isFirst = true. */
  function NewRobot(isFirst: bool, level: Level): (p: Player)
    ensures p.Valid() && p.PlayerRobot? && p.isFirst == isFirst && p.level == level
    ensures p.cellType == CELL_X <==> isFirst
  {
    PlayerRobot(isFirst, MarkerFor(isFirst), level)
  }
}
