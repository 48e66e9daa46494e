# Tic-tac-toe: board, minimax robot and session state machine

This project models the game logic of a Swing tic-tac-toe application (one Java file, `tictactoe/TicTacToe.java`). The Swing layer is removed. The model has three parts.

- **Board** (`board.dfy`, module `Boards`).
  - The nine cell types sit in row-major order, index = row * 3 + col, in an `array<int>`.
  - The cell buttons' `isClicked` flags sit in an `array<bool>`.
  - `checkWin`, `getEmptyCells` and `clear` work on these arrays.
  - `Wins` and `EmptyCells` are the reference definitions over `seq<int>`.
- **Players and the robot** (`players.dfy`, `minimax.dfy`).
  - A player is a value: its fields never change after construction. The first seat plays X, the second plays O.
  - The robot's exhaustive minimax search runs in place on the shared board. It places a hypothetical marker, recurses, and resets the cell to EMPTY.
  - The search is proved to compute the reference function `Score`, and to leave the board as it found it.
  - `getNextBestMove` is proved to return the first empty cell, in row-major order, of maximal score.
- **Session** (`session.dfy`, module `Session`).
  - The frame's `state` and `currPlayer` fields and the two listeners that change them are modelled twice.
  - First, as functions on a value `View` of the whole session: `Click`, `StartReset`, `HumanTurn`, `RobotTurn` and `AutoPlay`.
  - Second, as the class `TicTacToe`, whose methods are proved to compute those functions.
  - Turns alternate (`Alternates`): the board holds as many X as O or one X more, and while the game goes on the marker the counts call for is to move. Start and reset establish it, and the corrected cell listener keeps it.
  - The cell listener and the start/reset listener keep the invariant `Inv` (the menu listeners are not modelled; see Left out). Between two events the game is NOT_STARTED on an empty, unclicked board; or IN_PROGRESS on an open board with a human to move; or GAME_OVER. The transient X_WIN, O_WIN and DRAW states never outlast `checkGameState`.

Constants (`game.dfy`) are the source's `Game` constants. This includes the scores 10, -10 and 0 and the accumulator sentinels 10000 and -10000.

Modelling choices:

- The three `int` enumerations of the source become datatypes: the game state, the player type and the robot level.
- `Cell` objects become positions 0..8.
- The listeners and `MoveNextHard` write a cell's button text and its cell type together. The search (`getNextBestMove` and `miniMaxMove`, tictactoe/TicTacToe.java:975-982 and 1030-1054) writes only cell types, and it resets each of them to EMPTY before returning. So between events the text is empty exactly when the type is EMPTY, and the listener's test "the button shows no marker" is modelled as "the cell type is EMPTY".
- Java compares `currPlayer == playerOne` by reference. The model compares values. The two agree because the two seats differ in `isFirst`.
- The default `new Move()` of `getNextBestMove` (cell -1,-1, score SCORE_MIN) is `None`.

## Model

| member | source | states |
|---|---|---|
| `Players.MarkerFor` | tictactoe/TicTacToe.java:810-818 | a seat plays X exactly when it is the first seat, and always plays X or O |
| `Players.OppCellType` | tictactoe/TicTacToe.java:844-853 | X maps to O and O maps to X; any other value maps to EMPTY |
| `Players.OppOfSeat` | tictactoe/TicTacToe.java:810-853 | the opponent's marker is the other seat's marker, and taking the opponent twice gives the player's own marker back |
| `Players.Player.GetOppPlayerCellType` | tictactoe/TicTacToe.java:844-853 | for a player of either seat, the result is the other seat's marker, a player marker different from the player's own |
| `Players.Player.GetPlayerCellTypeStr` | tictactoe/TicTacToe.java:824-826 | a one-letter label: "X" when the player plays X, and "O" for every other cell type |
| `Players.Player.GetPlayerType` | tictactoe/TicTacToe.java:828-830 | ROBOT exactly for robot players |
| `Players.NewHuman` | tictactoe/TicTacToe.java:882-893 | a human player of the given seat, playing X exactly when the seat is first (the no-argument constructor is the first seat) |
| `Players.NewRobot` | tictactoe/TicTacToe.java:904-916 | a robot player of the given seat and level, playing X exactly when the seat is first |
| `Boards.WinsByLine` | tictactoe/TicTacToe.java:567-576 | a marker wins exactly when one of the eight listed index triples holds it in all three cells |
| `Boards.Board.CheckWin` | tictactoe/TicTacToe.java:567-576 | the result is `Wins` on the board contents (a line of the marker exists); it reads the cells and changes nothing |
| `Boards.Board.GetEmptyCells` | tictactoe/TicTacToe.java:527-537 | exactly the EMPTY positions, each once, in strictly ascending row-major order |
| `Boards.Board.Clear` | tictactoe/TicTacToe.java:543-551 | afterwards all nine cells are EMPTY and unclicked |
| `Boards.Board.constructor` | tictactoe/TicTacToe.java:476-512 | a fresh board of nine EMPTY, unclicked cells |
| `Boards.EmptyCellsPlace` | tictactoe/TicTacToe.java:1027-1035 | a marker placed on an empty cell removes exactly one empty position; this is the search's termination measure |
| `Boards.FullIffNoEmptyCells` | tictactoe/TicTacToe.java:1019-1021 | the list of empty positions is empty exactly when no cell is EMPTY |
| `Minimax.Score` | tictactoe/TicTacToe.java:1009-1061 | the reference search result is always SCORE_LOSS, SCORE_DRAW or SCORE_WIN |
| `Minimax.FoldMaxBound` | tictactoe/TicTacToe.java:1023-1040 | the maximizing loop's result is at least its start value and at least every remaining child score |
| `Minimax.FoldMinBound` | tictactoe/TicTacToe.java:1042-1060 | the minimizing loop's result is at most its start value and at most every remaining child score |
| `Minimax.FoldAttained` | tictactoe/TicTacToe.java:1023-1060 | a layer loop returns its start value or the child score of one of the remaining spots |
| `Minimax.ScoreIsMinimax` | tictactoe/TicTacToe.java:1009-1061 | on a board with no line and an empty cell, the score is the maximum (maximizing layer) or minimum (minimizing layer) of the child scores over the empty cells, and some empty cell attains it |
| `Minimax.MoveScores` | tictactoe/TicTacToe.java:969-985 | one candidate per empty cell, in `getEmptyCells` order: entry k is the k-th empty cell, scored by a minimizing search after the robot's marker is placed there |
| `Minimax.PickBestKeeps` | tictactoe/TicTacToe.java:988-996 | when no score beats the running best, the selection keeps the starting move |
| `Minimax.PickBestFinds` | tictactoe/TicTacToe.java:988-996 | once some score beats the start, the selection returns the first move of maximal score |
| `Minimax.BestMoveNone` | tictactoe/TicTacToe.java:964-999 | the default move is returned exactly when no cell is EMPTY |
| `Minimax.BestMoveIsFirstMaximal` | tictactoe/TicTacToe.java:964-999 | the chosen cell was EMPTY, its score is the search's score after the robot's marker is placed there, no empty cell scores higher, and every empty cell before it scores strictly lower (ties go to the first cell in row-major order) |
| `Minimax.BestMoveMeans` | tictactoe/TicTacToe.java:964-999 | both halves above together: the default move exactly on a full board, otherwise the first maximal empty cell |
| `Minimax.BestMoveScoreIsMaxLayer` | tictactoe/TicTacToe.java:969-1040 | on an open board, the best move's score equals the score of a maximizing layer on the same board |
| `Minimax.RobotMovePlaces` | tictactoe/TicTacToe.java:936-957 | a HARD robot facing an empty cell puts its own marker on exactly one cell, one that was empty |
| `Minimax.PlaceAndScore` | tictactoe/TicTacToe.java:1028-1035 | one loop branch: scores the board with the marker placed, and restores the cell |
| `Minimax.MiniMaxMove` | tictactoe/TicTacToe.java:1009-1061 | returns `Score` of the input board, which is -10 (maximizing) or +10 (minimizing) when either marker has a line, and 0 (a draw) when neither has a line and no cell is EMPTY; the value is always -10, 0 or 10, and the board is left identical to its input |
| `Minimax.MaxLayer` | tictactoe/TicTacToe.java:1023-1040 | the maximizing loop places the robot's own marker on each spot in turn, computes the maximizing fold, and restores the board |
| `Minimax.MinLayer` | tictactoe/TicTacToe.java:1042-1060 | the minimizing loop places the opponent's marker on each spot in turn, computes the minimizing fold, and restores the board |
| `Minimax.GetNextBestMove` | tictactoe/TicTacToe.java:964-999 | returns `BestMove` of the input board and satisfies `BestMoveMeaning` (an empty, maximal, first-in-order cell, or the default move exactly on a full board); the board is unchanged afterwards |
| `Minimax.SelectBest` | tictactoe/TicTacToe.java:988-996 | the strict `>` selection loop returns no move exactly when no score beats SCORE_MIN, and otherwise the first move of maximal score |
| `Minimax.MoveNextHard` | tictactoe/TicTacToe.java:936-957 | exactly the best move's cell is set to the robot's marker; nothing changes when there is no best move |
| `Minimax.RobotMove` | tictactoe/TicTacToe.java:919-928 | the reference board after a move is a board, and it equals the input unless the player is a HARD robot |
| `Minimax.MoveNext` | tictactoe/TicTacToe.java:919-928 | the board becomes `RobotMove`: HARD robots move, while EASY and MEDIUM robots and humans (tictactoe/TicTacToe.java:895-898) leave it unchanged |
| `Session.InitialView` | tictactoe/TicTacToe.java:27-31 | the frame starts NOT_STARTED on an empty, unclicked board |
| `Session.Outcome` | tictactoe/TicTacToe.java:427-451 | X_WIN exactly when X has a line; O_WIN exactly when O has a line and X does not; DRAW exactly when neither has a line and no cell is EMPTY; IN_PROGRESS exactly when neither has a line and some cell is EMPTY |
| `Session.SwitchIsOther` | tictactoe/TicTacToe.java:274 | passing the turn selects the other seat, and passing it twice gives it back |
| `Session.RobotTurn` | tictactoe/TicTacToe.java:279-287 | a robot turn keeps the seats and clicked flags, puts the robot's marker on one empty cell (one empty position fewer), passes the turn, and leaves the state IN_PROGRESS or GAME_OVER according to the new board; it never produces lines of both markers |
| `Session.AutoPlay` | tictactoe/TicTacToe.java:349-368 | the robot loop ends in IN_PROGRESS or GAME_OVER with the invariant, keeps seats and clicked flags, and does nothing when a human is to move |
| `Session.HumanMark` | tictactoe/TicTacToe.java:253-270 | marks the cell clicked; on an empty cell writes the current player's marker, and otherwise leaves the board as it is; sets the state from the new board |
| `Session.HumanTurn` | tictactoe/TicTacToe.java:253-290 | an accepted human click keeps the session invariant and the seats |
| `Session.HumanTurnMarks` | tictactoe/TicTacToe.java:255-266 | after the turn exactly the clicked cell has become clicked, and an empty clicked cell holds the human's marker |
| `Session.HumanTurnCells` | tictactoe/TicTacToe.java:268-287 | the board after the turn is the human's mark, followed, when the game goes on against a robot, by that robot's move |
| `Session.HumanTurnAlternates` | tictactoe/TicTacToe.java:272-287 | against a human the turn passes to the other seat while the game goes on; against a robot the robot answers and the turn comes back |
| `Session.Click` | tictactoe/TicTacToe.java:247-291 | the cell listener as written: it keeps the invariant and the seats, and ignores the click when the state is NOT_STARTED or GAME_OVER or the cell was already clicked |
| `Session.NewSeat` | tictactoe/TicTacToe.java:319-331 | the seat built from the player button's choice: a human, or a HARD robot, with the seat's marker |
| `Session.Start` | tictactoe/TicTacToe.java:313-369 | start seats player one (X) and player two (O), lets robots play, and ends IN_PROGRESS or GAME_OVER with the invariant; when player one is human, no robot moves, so player one (X) is to move on the untouched board |
| `Session.Seat` | tictactoe/TicTacToe.java:313-336 | before any robot moves, the state is IN_PROGRESS, the board and clicked flags are unchanged, and player one, playing X, is to move |
| `Session.Reset` | tictactoe/TicTacToe.java:376-389 | reset gives NOT_STARTED, no seats and an empty, unclicked board; `currPlayer` is left as it was |
| `Session.StartReset` | tictactoe/TicTacToe.java:311-390 | the start/reset listener keeps the invariant; from NOT_STARTED it leaves NOT_STARTED and seats the chosen players, and with a human player one the result is exactly `Seat` (X to move on the untouched board); from IN_PROGRESS or GAME_OVER it returns to NOT_STARTED with an empty board |
| `Session.RobotOpening` | tictactoe/TicTacToe.java:313-368 | a robot playing first against a human opens with exactly one X, on an unclicked cell, leaves every other cell EMPTY, and hands the turn to the human |
| `Session.ClickOnRobotCellPassesTurn` | tictactoe/TicTacToe.java:247-290 | as written, a human click on an unclicked robot cell marks it clicked, writes no marker, and lets the robot move again while the turn stays with the human |
| `Session.HumanTurnSkipped` | tictactoe/TicTacToe.java:247-290 | the skipped turn happens in a real session that starts with turns alternating: after a robot opening, clicking the robot's X writes no O, the human is to move again, and the board holds two X and no O, so turns no longer alternate |
| `Session.SkippedAt` | tictactoe/TicTacToe.java:247-290 | against a robot player one, clicking its lone X gives the skipped turn of `TurnSkipped` |
| `Session.TwoXAfterRobot` | tictactoe/TicTacToe.java:282-286 | on a board whose only marker is one X, the X robot's move leaves two X and no O |
| `Session.ClickFixed` | tictactoe/TicTacToe.java:248-250 | the corrected listener also ignores a click on any cell that already holds a marker, and keeps the invariant |
| `Session.ClickFixedAlwaysMarks` | tictactoe/TicTacToe.java:248-266 | with the corrected guard every accepted click writes the human's marker on an empty cell |
| `Boards.CountPlace` | tictactoe/TicTacToe.java:257-266 | a marker written on an empty cell adds one to that marker's count and leaves the count of every other marker unchanged |
| `Boards.CountAllEmpty` | tictactoe/TicTacToe.java:543-551 | a cleared board holds no marker |
| `Boards.CountSingle` | tictactoe/TicTacToe.java:943-946 | a board whose only marker is one `m` holds one `m` and none of any other marker |
| `Session.ToMove` | tictactoe/TicTacToe.java:274 | on a board of alternating turns X is to move exactly when both markers are equally many |
| `Session.RobotTurnAlternates` | tictactoe/TicTacToe.java:282-286 | a robot turn by the player the counts call for keeps the board balanced (as many X as O, or one X more) and leaves the other marker to move |
| `Session.AutoPlayAlternates` | tictactoe/TicTacToe.java:349-368 | the robot loop keeps turns alternating |
| `Session.HumanTurnKeepsAlternation` | tictactoe/TicTacToe.java:253-290 | a human turn on an empty cell, with the robot's answer, keeps turns alternating |
| `Session.ClickFixedAlternates` | tictactoe/TicTacToe.java:248-290 | with the corrected guard every click keeps turns alternating |
| `Session.StartResetAlternates` | tictactoe/TicTacToe.java:311-390 | start and reset both leave turns alternating, whatever the session held before |
| `Session.TicTacToe.constructor` | tictactoe/TicTacToe.java:27-31 | the frame starts in the initial session, which satisfies the invariant |
| `Session.TicTacToe.CheckGameState` | tictactoe/TicTacToe.java:427-469 | with its nested row/column scan, the state becomes GAME_OVER on an X line, an O line or a full board (in that priority), and IN_PROGRESS otherwise; the players are untouched |
| `Session.TicTacToe.RobotPlays` | tictactoe/TicTacToe.java:282-286 | `MoveNext`, `checkGameState` and the turn switch compute `RobotTurn` |
| `Session.TicTacToe.MarkCell` | tictactoe/TicTacToe.java:255-269 | updates the arrays and state as `HumanMark` says |
| `Session.TicTacToe.HumanPlays` | tictactoe/TicTacToe.java:253-290 | the human branch of the listener computes `HumanTurn` |
| `Session.TicTacToe.ActOnCellButton` | tictactoe/TicTacToe.java:237-293 | the cell listener keeps `Valid` and computes `Click` on the whole session |
| `Session.TicTacToe.ActOnCellButtonFixed` | tictactoe/TicTacToe.java:248-250 | the listener with the corrected guard keeps `Valid`, computes `ClickFixed`, and keeps turns alternating |
| `Session.TicTacToe.RobotsPlay` | tictactoe/TicTacToe.java:349-368 | the `do ... while` loop computes `AutoPlay` and terminates, because each round removes one empty cell |
| `Session.TicTacToe.StartGame` | tictactoe/TicTacToe.java:313-369 | the start branch computes `Start` |
| `Session.TicTacToe.ResetGame` | tictactoe/TicTacToe.java:376-389 | the reset branch computes `Reset` |
| `Session.TicTacToe.ActOnStartResetButton` | tictactoe/TicTacToe.java:309-391 | the start/reset listener keeps `Valid`, computes `StartReset` on the whole session, and leaves turns alternating |

## Left out

- Swing construction, layout, the menu bar, button text and enablement, and label text (tictactoe/TicTacToe.java:47-112, 178-196, 396-421, and the label writes in 453-468). These are presentation only.
- The game-menu listeners and `startGameFromMenu` (tictactoe/TicTacToe.java:113-176, 203-232) are not modelled. They are a third route into a game, and it behaves differently from the two listeners modelled:
  - `startGameFromMenu` does not test `state == NOT_STARTED` (compare line 313). It clears the board (227) and seats new players, so it restarts a game directly from IN_PROGRESS or GAME_OVER. Neither modelled listener has that transition.
  - The "Robot vs Human" item (127-134) makes the robot's first move inside the event, like the start listener.
  - The "Robot vs Robot" item (141-175) defers its loop through `SwingUtilities.invokeLater`. The event itself therefore ends IN_PROGRESS with a robot to move, a state `Inv` excludes.
  - That deferred loop breaks on GAME_OVER before passing the turn (166-170). The start listener's loop passes the turn first (362-366), so the two leave different values in `currPlayer` at the end of a game.
  - The invariant `Inv` and the alternation results are therefore claimed only for the cell listener and the start/reset listener.
- The player-button listeners (tictactoe/TicTacToe.java:396-421) only toggle button text. The model takes the choice they record as the `one` and `two` parameters of `StartReset`.
- `pause()` and its sleep (tictactoe/TicTacToe.java:298-305). This is timing only.
- `cellButton.doClick()` (tictactoe/TicTacToe.java:956). It re-enters the cell listener while the robot is still `currPlayer`. The listener then skips its human branch, so the re-entry changes nothing and is not modelled. Because of this the robot's cell stays unclicked; see Findings.
- `clone`, `toString`, `getPlayerTypeStr`, the `Move` and `Cell` accessors, and the unused `curMove` and `moves` fields of `Player`. Value types replace the copying, and positions replace `Cell` objects.
- `Minimax.MoveNextHard`: on a full board Java indexes the cell array at -4 (the default move's row and column are -1) and throws. The model leaves the board unchanged instead. The session invariant shows that a robot is asked to move only when an empty cell exists (`Minimax.RobotMovePlaces`, `Session.RobotTurn`).
- The `depth` argument of `miniMaxMove` is passed down but never read. It is kept as a parameter and does not affect the result.
- EASY and MEDIUM robots are never built by the listeners. Their `MoveNext` is modelled (it does nothing), but the session invariant records that seated robots are HARD.
- Game-theoretic claims such as "the robot never loses" or "perfect play draws". The source does not state them, and proving them means evaluating the whole game tree in the verifier.

## Findings

| source | as written | input that shows it | evidently intended | confidence | as-written member | corrected member |
|---|---|---|---|---|---|---|
| tictactoe/TicTacToe.java:248-290 | The listener ignores only clicked cells. The robot writes its marker without setting `isClicked` (tictactoe/TicTacToe.java:943-956). A human click on a robot's cell is therefore accepted: the cell is marked clicked, no marker is written because the cell is not empty, and the turn still passes. The robot then moves again. | Start with player one Robot and player two Human. The robot places X. The human clicks that X. No O is written, the robot places a second X, and the human is to move again. | A click on a cell holding a marker is ignored, so every accepted click writes the human's marker and turns keep alternating. | not executed | `Session.HumanTurnSkipped` | `Session.ClickFixedAlternates` |

The class method `Session.TicTacToe.ActOnCellButton` follows the code as written (`Session.Click`). `Session.TicTacToe.ActOnCellButtonFixed` is the corrected listener on the same class. It computes `Session.ClickFixed`, whose proved properties are `Session.ClickFixedAlwaysMarks` (every accepted click writes the human's marker) and `Session.ClickFixedAlternates` (turns keep alternating: as many X as O, or one X more, and while the game goes on the marker the counts call for is to move). The as-written listener breaks that alternation (`Session.HumanTurnSkipped`).
