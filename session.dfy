/** The session state machine of the source's `TicTacToe` frame: the `state` and
    `currPlayer` fields and the two handlers that change them, first as functions on a
    value `View` of the whole session, then as the class whose methods are proved to
    compute those functions. */
module Session {
  import opened Game
  import opened Boards
  import opened Players
  import opened Minimax

  /** Everything the handlers read or write: the cell types and `isClicked` flags of the
      board, the state, both seats and the player whose turn it is. */
  datatype View = View(
    cells: seq<int>,
    clicked: seq<bool>,
    state: GameState,
    playerOne: Option<Player>,
    playerTwo: Option<Player>,
    currPlayer: Option<Player>)

  /** The session the frame starts in: an empty board, nobody seated. */
  function InitialView(): (v: View)
    ensures |v.cells| == CELLS && |v.clicked| == CELLS && v.state == NotStarted
    ensures forall i :: 0 <= i < CELLS ==> v.cells[i] == CELL_EMPTY && !v.clicked[i]
  {
    View(seq(CELLS, _ => CELL_EMPTY), seq(CELLS, _ => false), NotStarted, None, None, None)
  }

  /** The classification `checkGameState` computes before collapsing it: an X line is
      looked for first, then an O line, then a full board. */
  function Outcome(b: seq<int>): (g: GameState)
    requires IsBoard(b)
    ensures g == XWin <==> Wins(b, CELL_X)
    ensures g == OWin <==> !Wins(b, CELL_X) && Wins(b, CELL_O)
    ensures g == Draw <==>
      !Wins(b, CELL_X) && !Wins(b, CELL_O) && forall i :: 0 <= i < CELLS ==> b[i] != CELL_EMPTY
    ensures g == InProgress <==>
      !Wins(b, CELL_X) && !Wins(b, CELL_O) && exists i :: 0 <= i < CELLS && b[i] == CELL_EMPTY
    ensures g == XWin || g == OWin || g == Draw || g == InProgress
  {
    FullIffNoEmptyCells(b);
    if Wins(b, CELL_X) then XWin
    else if Wins(b, CELL_O) then OWin
    else if EmptyCells(b) == [] then Draw
    else InProgress
  }

  /** The second half of `checkGameState`: a win or a draw ends the game. */
  function Settle(g: GameState): GameState {
    if g == XWin || g == OWin || g == Draw then GameOver else g
  }

  /** `currPlayer == playerOne ? playerTwo : playerOne`. */
  function Switch(v: View): Option<Player> {
    if v.currPlayer == v.playerOne then v.playerTwo else v.playerOne
  }

  /** Handlers only ever build HARD robots. */
  predicate HardIfRobot(p: Player) {
    p.PlayerRobot? ==> p.level == Hard
  }

  /** Nine cells of known types; a clicked cell is never empty. */
  predicate WellFormed(v: View) {
    && |v.cells| == CELLS && |v.clicked| == CELLS
    && (forall i :: 0 <= i < CELLS ==> IsCellType(v.cells[i]))
    && (forall i :: 0 <= i < CELLS && v.clicked[i] ==> v.cells[i] != CELL_EMPTY)
  }

  /** Both seats are taken, the first by X and the second by O, and the turn belongs to
      one of them. */
  predicate Seated(v: View) {
    && v.playerOne.Some? && v.playerTwo.Some? && v.currPlayer.Some?
    && v.playerOne.value.isFirst && v.playerOne.value.Valid() && HardIfRobot(v.playerOne.value)
    && !v.playerTwo.value.isFirst && v.playerTwo.value.Valid() && HardIfRobot(v.playerTwo.value)
    && (v.currPlayer == v.playerOne || v.currPlayer == v.playerTwo)
  }

  /** A game with seated players whose board is still open. */
  predicate Playing(v: View) {
    WellFormed(v) && Seated(v) && v.state == InProgress && Outcome(v.cells) == InProgress
  }

  /** The states a session can be in between two events: not started on an empty,
      unclicked board; in progress on an open board with a human to move; or over, on a
      board with a line or no empty cell but never lines of both markers. The transient
      XWin, OWin and Draw never last beyond `checkGameState`. */
  predicate Inv(v: View) {
    && WellFormed(v)
    && match v.state
       case NotStarted => forall i :: 0 <= i < CELLS ==> v.cells[i] == CELL_EMPTY && !v.clicked[i]
       case InProgress => Playing(v) && v.currPlayer.value.PlayerHuman?
       case GameOver =>
         Seated(v) && Outcome(v.cells) != InProgress && !(Wins(v.cells, CELL_X) && Wins(v.cells, CELL_O))
       case _ => false
  }

  lemma InitialInv()
    ensures Inv(InitialView())
  {
  }

  /** The seat that moves next is the other seat. */
  lemma SwitchIsOther(v: View)
    requires Seated(v)
    ensures Switch(v).Some? && Switch(v) != v.currPlayer
    ensures Switch(v) == v.playerOne || Switch(v) == v.playerTwo
    ensures Switch(v.(currPlayer := Switch(v))) == v.currPlayer
  {
  }

  /** One robot turn, as both handlers run it: `MoveNext`, `checkGameState`, then the
      turn passes. */
  function RobotTurn(v: View): (w: View)
    requires Playing(v) && v.currPlayer.value.PlayerRobot?
    ensures WellFormed(w) && Seated(w)
    ensures w.playerOne == v.playerOne && w.playerTwo == v.playerTwo && w.clicked == v.clicked
    ensures w.currPlayer == Switch(v)
    ensures w.cells == RobotMove(v.currPlayer.value, v.cells)
    ensures exists s :: (0 <= s < CELLS && v.cells[s] == CELL_EMPTY &&
      w.cells == v.cells[s := v.currPlayer.value.cellType])
    ensures |EmptyCells(w.cells)| == |EmptyCells(v.cells)| - 1
    ensures w.state == InProgress <==> Outcome(w.cells) == InProgress
    ensures w.state == GameOver <==> Outcome(w.cells) != InProgress
    ensures !(Wins(w.cells, CELL_X) && Wins(w.cells, CELL_O))
  {
    var p := v.currPlayer.value;
    RobotMovePlaces(p, v.cells);
    var s := BestMove(v.cells, p.cellType).value.spot;
    var cells := RobotMove(p, v.cells);
    EmptyCellsPlace(v.cells, s, p.cellType);
    PlaceKeepsOthersFromWinning(v.cells, s, p.cellType, OppCellType(p.cellType));
    SwitchIsOther(v);
    var v1 := v.(cells := cells, state := Settle(Outcome(cells)));
    v1.(currPlayer := Switch(v1))
  }

  /** The `do ... while` loop of the start handler: robots move until the game is over or
      a human is to move. */
  function AutoPlay(v: View): (w: View)
    requires Playing(v)
    ensures Inv(w) && (w.state == InProgress || w.state == GameOver)
    ensures w.playerOne == v.playerOne && w.playerTwo == v.playerTwo && w.clicked == v.clicked
    ensures v.currPlayer.value.PlayerHuman? ==> w == v
    decreases |EmptyCells(v.cells)|
  {
    if v.currPlayer.value.GetPlayerType() == Robot then
      var w := RobotTurn(v);
      if w.state == GameOver then w
      else if w.currPlayer.value.GetPlayerType() == Robot then AutoPlay(w)
      else w
    else v
  }

  /** The human's half of a click on an open cell: mark it clicked, write the player's
      marker if the cell shows no marker, then `checkGameState`. */
  function HumanMark(v: View, i: Pos): (w: View)
    requires Inv(v) && v.state == InProgress && !v.clicked[i]
    ensures WellFormed(w) && Seated(w)
    ensures w.playerOne == v.playerOne && w.playerTwo == v.playerTwo && w.currPlayer == v.currPlayer
    ensures w.clicked == v.clicked[i := true]
    ensures w.cells == if v.cells[i] == CELL_EMPTY then v.cells[i := v.currPlayer.value.cellType] else v.cells
    ensures w.state == InProgress <==> Outcome(w.cells) == InProgress
    ensures w.state == GameOver <==> Outcome(w.cells) != InProgress
    ensures !(Wins(w.cells, CELL_X) && Wins(w.cells, CELL_O))
  {
    var p := v.currPlayer.value;
    var cells := if v.cells[i] == CELL_EMPTY then
      v.cells[i := if p.cellType == CELL_X then CELL_X else CELL_O]
    else v.cells;
    if v.cells[i] == CELL_EMPTY then
      PlaceKeepsOthersFromWinning(v.cells, i, p.cellType, OppCellType(p.cellType));
      v.(cells := cells, clicked := v.clicked[i := true], state := Settle(Outcome(cells)))
    else
      v.(cells := cells, clicked := v.clicked[i := true], state := Settle(Outcome(cells)))
  }

  /** A human's accepted click: the human marks the cell; while the game goes on the
      turn passes, and a robot opponent answers at once and hands the turn back. */
  function HumanTurn(v: View, i: Pos): (w: View)
    requires Inv(v) && v.state == InProgress && !v.clicked[i]
    ensures Inv(w)
    ensures w.playerOne == v.playerOne && w.playerTwo == v.playerTwo
  {
    SwitchIsOther(v);
    var v1 := HumanMark(v, i);
    if v1.state == NotStarted || v1.state == GameOver then v1
    else
      SwitchIsOther(v1);
      var v2 := v1.(currPlayer := Switch(v1));
      if v2.currPlayer.value.GetPlayerType() == Robot then RobotTurn(v2)
      else v2
  }

  /** The clicked cell, and no other, becomes clicked; if it was empty it holds the
      human's marker. */
  lemma HumanTurnMarks(v: View, i: Pos)
    requires Inv(v) && v.state == InProgress && !v.clicked[i]
    ensures HumanTurn(v, i).clicked == v.clicked[i := true]
    ensures v.cells[i] == CELL_EMPTY ==> HumanTurn(v, i).cells[i] == v.currPlayer.value.cellType
  {
    var v1 := HumanMark(v, i);
    if v1.state != GameOver {
      SwitchIsOther(v1);
    }
  }

  /** The board after the turn: the human's mark, followed, while the game goes on
      against a robot, by the robot's move. */
  lemma HumanTurnCells(v: View, i: Pos)
    requires Inv(v) && v.state == InProgress && !v.clicked[i]
    ensures Outcome(HumanMark(v, i).cells) != InProgress || Switch(v).value.PlayerHuman? ==>
      HumanTurn(v, i).cells == HumanMark(v, i).cells
    ensures Outcome(HumanMark(v, i).cells) == InProgress && Switch(v).value.PlayerRobot? ==>
      HumanTurn(v, i).cells == RobotMove(Switch(v).value, HumanMark(v, i).cells)
  {
    SwitchIsOther(v);
    var v1 := HumanMark(v, i);
    if v1.state != GameOver {
      SwitchIsOther(v1);
    }
  }

  /** Turns alternate: against a human the turn passes to the other seat while the game
      goes on; against a robot the robot answers and the turn comes back. */
  lemma HumanTurnAlternates(v: View, i: Pos)
    requires Inv(v) && v.state == InProgress && !v.clicked[i]
    ensures Switch(v).value.PlayerHuman? && HumanTurn(v, i).state == InProgress ==>
      HumanTurn(v, i).currPlayer == Switch(v)
    ensures Switch(v).value.PlayerRobot? ==> HumanTurn(v, i).currPlayer == v.currPlayer
  {
    SwitchIsOther(v);
    var v1 := HumanMark(v, i);
    if v1.state != GameOver {
      SwitchIsOther(v1);
    }
  }

  /** The listener of cell `i` (`actOnCellButton`), as written: the click is ignored
      before the start, after the end, on a clicked cell and when a robot is to move;
      otherwise it is the human's turn. */
  function Click(v: View, i: Pos): (w: View)
    requires Inv(v)
    ensures Inv(w)
    ensures v.state == NotStarted || v.state == GameOver || v.clicked[i] ==> w == v
    ensures w.playerOne == v.playerOne && w.playerTwo == v.playerTwo
  {
    if v.state == NotStarted || v.state == GameOver || v.clicked[i] then v
    else if v.currPlayer.value.GetPlayerType() != Human then v
    else HumanTurn(v, i)
  }

  /** The two fresh seats of a start, from the choices on the player buttons; robots are
      always HARD. */
  function NewSeat(isFirst: bool, t: PlayerType): (p: Player)
    ensures p.Valid() && p.isFirst == isFirst && HardIfRobot(p)
    ensures p.PlayerHuman? <==> t == Human
  {
    if t == Human then NewHuman(isFirst) else NewRobot(isFirst, Hard)
  }

  /** The start branch of the start/reset button: seat the players, X first, hand the
      turn to player one and let robots play. */
  function Start(v: View, one: PlayerType, two: PlayerType): (w: View)
    requires Inv(v) && v.state == NotStarted
    ensures Inv(w) && (w.state == InProgress || w.state == GameOver)
    ensures w.playerOne == Some(NewSeat(true, one)) && w.playerTwo == Some(NewSeat(false, two))
    ensures w.clicked == v.clicked
    ensures one == Human ==> w == Seat(v, one, two)
  {
    EmptyBoardOpen(v.cells);
    AutoPlay(Seat(v, one, two))
  }

  /** The reset branch of the start/reset button: empty seats, an empty unclicked board. */
  function Reset(v: View): (w: View)
    requires |v.cells| == CELLS && |v.clicked| == CELLS
    ensures Inv(w) && w.state == NotStarted && w.playerOne.None? && w.playerTwo.None?
    ensures w.currPlayer == v.currPlayer
    ensures forall k :: 0 <= k < CELLS ==> w.cells[k] == CELL_EMPTY && !w.clicked[k]
  {
    v.(state := NotStarted, playerOne := None, playerTwo := None,
       cells := seq(CELLS, _ => CELL_EMPTY), clicked := seq(CELLS, _ => false))
  }

  /** The listener of the start/reset button (`actOnStartResetButton`): it starts a game
      from NOT_STARTED and resets one from IN_PROGRESS or GAME_OVER. `currPlayer` is not
      reset. */
  function StartReset(v: View, one: PlayerType, two: PlayerType): (w: View)
    requires Inv(v)
    ensures Inv(w)
    ensures v.state == NotStarted ==> w.state != NotStarted
    ensures v.state == NotStarted ==> w.playerOne == Some(NewSeat(true, one))
    ensures v.state == NotStarted ==> w.playerTwo == Some(NewSeat(false, two))
    ensures v.state == NotStarted && one == Human ==> w == Seat(v, one, two)
    ensures v.state != NotStarted ==> w.state == NotStarted && w.currPlayer == v.currPlayer
    ensures v.state != NotStarted ==> w.playerOne.None? && w.playerTwo.None?
    ensures v.state != NotStarted ==> forall k :: 0 <= k < CELLS ==> w.cells[k] == CELL_EMPTY && !w.clicked[k]
  {
    // the invariant leaves IN_PROGRESS and GAME_OVER as the only other states
    if v.state == NotStarted then Start(v, one, two) else Reset(v)
  }

  /** An empty board has no line and an empty cell. */
  lemma EmptyBoardOpen(b: seq<int>)
    requires IsBoard(b) && forall k :: 0 <= k < CELLS ==> b[k] == CELL_EMPTY
    ensures Outcome(b) == InProgress
  {
    WinsByLine(b, CELL_X);
    WinsByLine(b, CELL_O);
    assert b[0] == CELL_EMPTY;
  }

  /** As written, a robot's cell is never marked clicked, so a human click on it is not
      ignored: no marker is written, yet the turn passes and the robot moves again. */
  lemma ClickOnRobotCellPassesTurn(v: View, i: Pos)
    requires Inv(v) && v.state == InProgress && !v.clicked[i] && v.cells[i] != CELL_EMPTY
    requires Switch(v).value.PlayerRobot?
    ensures Click(v, i).clicked == v.clicked[i := true]
    ensures Click(v, i).cells == RobotMove(Switch(v).value, v.cells)
    ensures Click(v, i).currPlayer == v.currPlayer
  {
    assert Click(v, i) == HumanTurn(v, i);
    HumanTurnMarks(v, i);
    HumanTurnCells(v, i);
    HumanTurnAlternates(v, i);
  }

  /** The seats and turn a start sets up before any robot moves: player one (X) is to
      move on the board as it was. */
  function Seat(v: View, one: PlayerType, two: PlayerType): (w: View)
    ensures w.currPlayer == w.playerOne && w.currPlayer.Some? && w.currPlayer.value.cellType == CELL_X
    ensures w.cells == v.cells && w.clicked == v.clicked && w.state == InProgress
  {
    v.(state := InProgress, playerOne := Some(NewSeat(true, one)), playerTwo := Some(NewSeat(false, two)),
       currPlayer := Some(NewSeat(true, one)))
  }

  /** A robot's first move on an empty board leaves one X, no O, and the game open. */
  lemma OpeningMove(v: View)
    requires Playing(v) && v.currPlayer.value.PlayerRobot? && v.currPlayer.value.cellType == CELL_X
    requires forall k :: 0 <= k < CELLS ==> v.cells[k] == CELL_EMPTY && !v.clicked[k]
    ensures RobotTurn(v).state == InProgress
    ensures forall k :: 0 <= k < CELLS ==> RobotTurn(v).cells[k] != CELL_O
    ensures exists i :: (0 <= i < CELLS && RobotTurn(v).cells[i] == CELL_X && !RobotTurn(v).clicked[i] &&
      forall k :: 0 <= k < CELLS && k != i ==> RobotTurn(v).cells[k] == CELL_EMPTY)
  {
    var w := RobotTurn(v);
    var s :| 0 <= s < CELLS && v.cells[s] == CELL_EMPTY && w.cells == v.cells[s := CELL_X];
    var e := PlaceOnEmpty(v.cells, s, CELL_X);
    assert !w.clicked[s];
  }

  /** One marker on an empty board: the game is open and every other cell is EMPTY. */
  lemma PlaceOnEmpty(e: seq<int>, s: Pos, m: int) returns (w: seq<int>)
    requires IsBoard(e) && m != CELL_EMPTY
    requires forall k :: 0 <= k < CELLS ==> e[k] == CELL_EMPTY
    ensures w == e[s := m]
    ensures Outcome(w) == InProgress
    ensures w[s] == m
    ensures forall k :: 0 <= k < CELLS && k != s ==> w[k] == CELL_EMPTY
  {
    w := e[s := m];
    OneMarkerOpen(w, s);
  }

  /** A robot playing first against a human opens with one X, leaves that cell
      unclicked and hands the turn to the human. */
  lemma RobotOpening(v0: View)
    requires Inv(v0) && v0.state == NotStarted
    ensures var v := StartReset(v0, Robot, Human);
      && v.state == InProgress && v.currPlayer == v.playerTwo
      && (forall k :: 0 <= k < CELLS ==> v.cells[k] != CELL_O)
      && exists i :: (0 <= i < CELLS && v.cells[i] == CELL_X && !v.clicked[i] &&
        forall k :: 0 <= k < CELLS && k != i ==> v.cells[k] == CELL_EMPTY)
  {
    var v1 := Seat(v0, Robot, Human);
    EmptyBoardOpen(v0.cells);
    assert StartReset(v0, Robot, Human) == Start(v0, Robot, Human) == AutoPlay(v1);
    OpeningMove(v1);
    var w := RobotTurn(v1);
    assert w.currPlayer == v1.playerTwo;
    assert AutoPlay(v1) == w;
  }

  /** A board with a single marker is still open. */
  lemma OneMarkerOpen(b: seq<int>, s: Pos)
    requires IsBoard(b) && forall k :: 0 <= k < CELLS && k != s ==> b[k] == CELL_EMPTY
    ensures Outcome(b) == InProgress
  {
    WinsByLine(b, CELL_X);
    WinsByLine(b, CELL_O);
    assert b[if s == 0 then 1 else 0] == CELL_EMPTY;
  }

  /** Clicking the X on cell `i` lets the robot, not the human, fill a cell: no O is
      written, the human is to move again, and the board holds two X and no O, so turns
      no longer alternate. */
  predicate TurnSkipped(v: View, i: Pos)
    requires Inv(v) && v.playerOne.Some?
  {
    var w := Click(v, i);
    && v.cells[i] == CELL_X
    && w.currPlayer == v.currPlayer
    && w.cells == RobotMove(v.playerOne.value, v.cells)
    && (forall k :: 0 <= k < CELLS ==> w.cells[k] != CELL_O)
    && Count(w.cells, CELL_X) == 2 && Count(w.cells, CELL_O) == 0
    && !Alternates(w)
  }

  /** The skipped turn happens in a real session: after a robot opening, a human click on
      the robot's X writes no O, the robot moves again, and the human is to move again. */
  lemma HumanTurnSkipped(v0: View)
    requires Inv(v0) && v0.state == NotStarted
    ensures Inv(StartReset(v0, Robot, Human)) && StartReset(v0, Robot, Human).playerOne.Some?
    ensures Alternates(StartReset(v0, Robot, Human))
    ensures exists i: Pos :: TurnSkipped(StartReset(v0, Robot, Human), i)
  {
    RobotOpening(v0);
    StartResetAlternates(v0, Robot, Human);
    var v := StartReset(v0, Robot, Human);
    var i: Pos :| v.cells[i] == CELL_X && !v.clicked[i] &&
      forall k :: 0 <= k < CELLS && k != i ==> v.cells[k] == CELL_EMPTY;
    SkippedAt(v, i);
  }

  /** Against a robot player one, a click on its lone X skips the human's turn. */
  lemma SkippedAt(v: View, i: Pos)
    requires Inv(v) && v.state == InProgress && v.playerOne.value.PlayerRobot? && v.currPlayer == v.playerTwo
    requires v.cells[i] == CELL_X && !v.clicked[i]
    requires forall k :: 0 <= k < CELLS && k != i ==> v.cells[k] == CELL_EMPTY
    ensures TurnSkipped(v, i)
  {
    SwitchIsOther(v);
    ClickOnRobotCellPassesTurn(v, i);
    var w := Click(v, i);
    NoOAfterRobot(v, w);
    TwoXAfterRobot(v, i, w);
  }

  /** On a board whose only marker is one X, the X robot's move leaves two X and no O. */
  lemma TwoXAfterRobot(v: View, i: Pos, w: View)
    requires Inv(v) && v.state == InProgress && v.playerOne.value.PlayerRobot?
    requires v.cells[i] == CELL_X && forall k :: 0 <= k < CELLS && k != i ==> v.cells[k] == CELL_EMPTY
    requires w.cells == RobotMove(v.playerOne.value, v.cells)
    ensures Count(w.cells, CELL_X) == 2 && Count(w.cells, CELL_O) == 0
  {
    CountSingle(v.cells, i, CELL_X, CELL_O);
    RobotMovePlaces(v.playerOne.value, v.cells);
    var s := BestMove(v.cells, CELL_X).value.spot;
    CountPlace(v.cells, s, CELL_X, CELL_X);
    CountPlace(v.cells, s, CELL_X, CELL_O);
  }

  /** On a board of X and EMPTY only, the X robot's move writes no O. */
  lemma NoOAfterRobot(v: View, w: View)
    requires Inv(v) && v.state == InProgress && v.playerOne.value.PlayerRobot?
    requires forall j :: 0 <= j < CELLS ==> v.cells[j] != CELL_O
    requires w.cells == RobotMove(v.playerOne.value, v.cells)
    ensures forall k :: 0 <= k < CELLS ==> w.cells[k] != CELL_O
  {
    var p := v.playerOne.value;
    if BestMove(v.cells, p.cellType).Some? {
      assert w.cells == v.cells[BestMove(v.cells, p.cellType).value.spot := CELL_X];
    }
  }

  /** The evidently intended listener: a click on any cell that already holds a marker is
      ignored, whether or not it was clicked. */
  function ClickFixed(v: View, i: Pos): (w: View)
    requires Inv(v)
    ensures Inv(w)
    ensures v.state == NotStarted || v.state == GameOver || v.clicked[i] ==> w == v
    ensures v.cells[i] != CELL_EMPTY ==> w == v
    ensures w.playerOne == v.playerOne && w.playerTwo == v.playerTwo
  {
    if v.state == NotStarted || v.state == GameOver || v.clicked[i] || v.cells[i] != CELL_EMPTY then v
    else Click(v, i)
  }

  /** With the corrected guard every accepted click writes the human's marker on an empty
      cell: a turn can no longer pass without a move. */
  lemma ClickFixedAlwaysMarks(v: View, i: Pos)
    requires Inv(v)
    ensures ClickFixed(v, i) == v ||
      (v.cells[i] == CELL_EMPTY && ClickFixed(v, i).cells[i] == v.currPlayer.value.cellType)
  {
    if ClickFixed(v, i) != v {
      assert ClickFixed(v, i) == HumanTurn(v, i);
    }
  }

  /** The marker whose turn it is on a board of alternating turns: X when both markers
      are equally many, O when X has one more. */
  function ToMove(b: seq<int>): (m: int)
    ensures IsPlayerCellType(m)
    ensures m == CELL_X <==> Count(b, CELL_X) == Count(b, CELL_O)
  {
    if Count(b, CELL_X) == Count(b, CELL_O) then CELL_X else CELL_O
  }

  /** Turns have alternated, X first: the board holds as many X as O or one X more. */
  predicate Balanced(b: seq<int>) {
    Count(b, CELL_X) == Count(b, CELL_O) || Count(b, CELL_X) == Count(b, CELL_O) + 1
  }

  /** Turns alternate: the board is balanced and, while the game goes on, the player to
      move owns the marker the counts call for. */
  predicate Alternates(v: View) {
    && Balanced(v.cells)
    && (v.state == InProgress && v.currPlayer.Some? ==> v.currPlayer.value.cellType == ToMove(v.cells))
  }

  /** A robot turn of the player the counts call for puts its marker down and passes the
      turn to the other marker. */
  lemma RobotTurnAlternates(v: View)
    requires Playing(v) && v.currPlayer.value.PlayerRobot? && Alternates(v)
    ensures Alternates(RobotTurn(v))
  {
    var p := v.currPlayer.value;
    var w := RobotTurn(v);
    var s :| 0 <= s < CELLS && v.cells[s] == CELL_EMPTY && w.cells == v.cells[s := p.cellType];
    CountPlace(v.cells, s, p.cellType, CELL_X);
    CountPlace(v.cells, s, p.cellType, CELL_O);
  }

  /** The robot loop keeps turns alternating. */
  lemma {:induction false} AutoPlayAlternates(v: View)
    requires Playing(v) && Alternates(v)
    ensures Alternates(AutoPlay(v))
    decreases |EmptyCells(v.cells)|
  {
    if v.currPlayer.value.PlayerRobot? {
      RobotTurnAlternates(v);
      var w := RobotTurn(v);
      if w.state != GameOver && w.currPlayer.value.PlayerRobot? {
        AutoPlayAlternates(w);
      }
    }
  }

  /** A human turn on an empty cell keeps turns alternating, the robot's answer included. */
  lemma HumanTurnKeepsAlternation(v: View, i: Pos)
    requires Inv(v) && v.state == InProgress && !v.clicked[i] && v.cells[i] == CELL_EMPTY
    requires Alternates(v)
    ensures Alternates(HumanTurn(v, i))
  {
    var p := v.currPlayer.value;
    var v1 := HumanMark(v, i);
    CountPlace(v.cells, i, p.cellType, CELL_X);
    CountPlace(v.cells, i, p.cellType, CELL_O);
    assert Balanced(v1.cells);
    if v1.state != GameOver {
      SwitchIsOther(v1);
      var v2 := v1.(currPlayer := Switch(v1));
      assert Alternates(v2);
      if v2.currPlayer.value.PlayerRobot? {
        RobotTurnAlternates(v2);
      }
    }
  }

  /** With the corrected guard every click keeps turns alternating. */
  lemma ClickFixedAlternates(v: View, i: Pos)
    requires Inv(v) && Alternates(v)
    ensures Alternates(ClickFixed(v, i))
  {
    if ClickFixed(v, i) != v {
      HumanTurnKeepsAlternation(v, i);
    }
  }

  /** Starting and resetting both leave turns alternating, whatever came before. */
  lemma StartResetAlternates(v: View, one: PlayerType, two: PlayerType)
    requires Inv(v)
    ensures Alternates(StartReset(v, one, two))
  {
    if v.state == NotStarted {
      CountAllEmpty(v.cells, CELL_X);
      CountAllEmpty(v.cells, CELL_O);
      EmptyBoardOpen(v.cells);
      AutoPlayAlternates(Seat(v, one, two));
    } else {
      var w := Reset(v);
      CountAllEmpty(w.cells, CELL_X);
      CountAllEmpty(w.cells, CELL_O);
    }
  }

  /** The frame's game state: the board and the fields the handlers update. The frame
      starts NOT_STARTED; `Valid` is the invariant every handler keeps. */
  class TicTacToe {
    const board: Board
    var state: GameState
    var playerOne: Option<Player>
    var playerTwo: Option<Player>
    var currPlayer: Option<Player>

    function Snapshot(): View
      reads this, board.cells, board.clicked
    {
      View(board.cells[..], board.clicked[..], state, playerOne, playerTwo, currPlayer)
    }

    ghost predicate Valid()
      reads this, board.cells, board.clicked
    {
      board.Valid() && Inv(Snapshot())
    }

    constructor ()
      ensures Valid() && Snapshot() == InitialView()
      ensures fresh(board) && fresh(board.cells) && fresh(board.clicked)
    {
      board := new Board();
      state := NotStarted;
      playerOne := None;
      playerTwo := None;
      currPlayer := None;
      new;
      assert board.cells[..] == InitialView().cells;
      assert board.clicked[..] == InitialView().clicked;
    }

    /** `checkGameState`: classify the board (X line, O line, full board, in that order)
        and collapse a win or a draw to GAME_OVER. */
    method CheckGameState()
      requires board.Valid()
      modifies this
      ensures state == Settle(Outcome(board.cells[..]))
      ensures playerOne == old(playerOne) && playerTwo == old(playerTwo) && currPlayer == old(currPlayer)
    {
      ghost var b := board.cells[..];
      if board.CheckWin(CELL_X) {
        state := XWin;
      } else if board.CheckWin(CELL_O) {
        state := OWin;
      } else {
        var isBoardFull := true;
        var row := 0;
        while row < SIZE
          invariant 0 <= row <= SIZE
          invariant isBoardFull ==> forall k :: 0 <= k < row * SIZE ==> b[k] != CELL_EMPTY
          invariant !isBoardFull ==> exists k :: 0 <= k < CELLS && b[k] == CELL_EMPTY
        {
          var col := 0;
          while col < SIZE
            invariant 0 <= col <= SIZE
            invariant isBoardFull ==> forall k :: 0 <= k < row * SIZE + col ==> b[k] != CELL_EMPTY
            invariant !isBoardFull ==> exists k :: 0 <= k < CELLS && b[k] == CELL_EMPTY
          {
            if board.cells[row * SIZE + col] == CELL_EMPTY {
              isBoardFull := false;
              break;
            }
            // meant to leave the outer loop, but it only leaves the inner one
            if !isBoardFull {
              break;
            }
            col := col + 1;
          }
          row := row + 1;
        }
        state := if isBoardFull then Draw else InProgress;
      }
      match state
      case XWin => state := GameOver;
      case OWin => state := GameOver;
      case Draw => state := GameOver;
      case _ =>
    }

    /** A robot's turn inside either listener: `MoveNext`, `checkGameState`, and the turn
        passes. */
    method RobotPlays()
      requires board.Valid() && Playing(Snapshot()) && currPlayer.value.PlayerRobot?
      modifies this, board.cells
      ensures Snapshot() == RobotTurn(old(Snapshot()))
    {
      MoveNext(currPlayer.value, board);
      CheckGameState();
      currPlayer := if currPlayer == playerOne then playerTwo else playerOne;
    }

    /** The human's part of a click on cell `i`. */
    method MarkCell(i: Pos)
      requires Valid() && state == InProgress && !board.clicked[i]
      modifies this, board.cells, board.clicked
      ensures Snapshot() == HumanMark(old(Snapshot()), i)
    {
      board.clicked[i] := true;
      if board.cells[i] == CELL_EMPTY {
        if currPlayer.value.cellType == CELL_X {
          board.cells[i] := CELL_X;
        } else {
          board.cells[i] := CELL_O;
        }
      }
      CheckGameState();
    }

    /** A human's accepted click; it computes `HumanTurn`. */
    method HumanPlays(i: Pos)
      requires Valid() && state == InProgress && !board.clicked[i]
      modifies this, board.cells, board.clicked
      ensures Snapshot() == HumanTurn(old(Snapshot()), i)
    {
      ghost var v := Snapshot();
      MarkCell(i);
      ghost var v1 := Snapshot();
      assert v1 == HumanMark(v, i);
      if state == NotStarted || state == GameOver {
        return;
      }
      SwitchIsOther(v1);
      currPlayer := if currPlayer == playerOne then playerTwo else playerOne;
      ghost var v2 := Snapshot();
      assert v2 == v1.(currPlayer := Switch(v1));
      if currPlayer.value.GetPlayerType() == Robot {
        RobotPlays();
        assert Snapshot() == RobotTurn(v2);
      }
    }

    /** The listener of cell `i`; it computes `Click`. */
    method ActOnCellButton(i: Pos)
      requires Valid()
      modifies this, board.cells, board.clicked
      ensures Valid()
      ensures Snapshot() == Click(old(Snapshot()), i)
    {
      if state == NotStarted || state == GameOver || board.clicked[i] {
        return;
      }
      if currPlayer.value.GetPlayerType() == Human {
        HumanPlays(i);
      }
    }

    /** The cell listener with the corrected guard; it computes `ClickFixed`. */
    method ActOnCellButtonFixed(i: Pos)
      requires Valid()
      modifies this, board.cells, board.clicked
      ensures Valid()
      ensures Snapshot() == ClickFixed(old(Snapshot()), i)
      ensures Alternates(old(Snapshot())) ==> Alternates(Snapshot())
    {
      if Alternates(Snapshot()) {
        ClickFixedAlternates(Snapshot(), i);
      }
      if state == NotStarted || state == GameOver || board.clicked[i] || board.cells[i] != CELL_EMPTY {
        return;
      }
      ActOnCellButton(i);
    }

    /** The `do ... while` loop of the start listener; it computes `AutoPlay`. */
    method RobotsPlay()
      requires board.Valid() && Playing(Snapshot())
      modifies this, board.cells
      ensures Snapshot() == AutoPlay(old(Snapshot()))
    {
      ghost var v1 := Snapshot();
      while true
        invariant board.Valid() && Playing(Snapshot())
        invariant AutoPlay(Snapshot()) == AutoPlay(v1)
        decreases |EmptyCells(board.cells[..])|
      {
        if currPlayer.value.GetPlayerType() == Robot {
          RobotPlays();
        } else {
          break;
        }
        if state == GameOver {
          break;
        }
        if currPlayer.value.GetPlayerType() != Robot {
          break;
        }
      }
    }

    /** The start branch of the start/reset listener; it computes `Start`. */
    method StartGame(one: PlayerType, two: PlayerType)
      requires Valid() && state == NotStarted
      modifies this, board.cells
      ensures Snapshot() == Start(old(Snapshot()), one, two)
    {
      ghost var v := Snapshot();
      state := InProgress;
      playerOne := Some(if one == Human then NewHuman(true) else NewRobot(true, Hard));
      playerTwo := Some(if two == Human then NewHuman(false) else NewRobot(false, Hard));
      currPlayer := playerOne;
      EmptyBoardOpen(v.cells);
      RobotsPlay();
    }

    /** The reset branch of the start/reset listener; it computes `Reset`. */
    method ResetGame()
      requires board.Valid()
      modifies this, board.cells, board.clicked
      ensures Snapshot() == Reset(old(Snapshot()))
    {
      state := NotStarted;
      playerOne := None;
      playerTwo := None;
      board.Clear();
      assert board.cells[..] == seq(CELLS, _ => CELL_EMPTY);
      assert board.clicked[..] == seq(CELLS, _ => false);
    }

    /** The listener of the start/reset button; it computes `StartReset`. */
    method ActOnStartResetButton(one: PlayerType, two: PlayerType)
      requires Valid()
      modifies this, board.cells, board.clicked
      ensures Valid()
      ensures Snapshot() == StartReset(old(Snapshot()), one, two)
      ensures Alternates(Snapshot())
    {
      StartResetAlternates(Snapshot(), one, two);
      if state == NotStarted {
        StartGame(one, two);
      } else if state == InProgress || state == GameOver {
        ResetGame();
      }
    }
  }
}
