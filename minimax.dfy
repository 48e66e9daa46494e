/** The robot's exhaustive minimax search (the source's `PlayerRobot`): a reference
    definition of the score of a position, and the imperative search that computes it on
    the shared board, placing and removing hypothetical markers in place. */
module Minimax {
  import opened Game
  import opened Boards
  import opened Players

  /** `Math.max` and `Math.min`. */
  function Max(a: int, b: int): int {
    if a >= b then a else b
  }

  function Min(a: int, b: int): int {
    if a <= b then a else b
  }

  /** The marker a search layer places: the robot's own when maximizing, the opponent's
      when minimizing. */
  function LayerCellType(me: int, isMaximizing: bool): (m: int)
    requires IsPlayerCellType(me)
    ensures IsPlayerCellType(m)
    ensures m == me <==> isMaximizing
  {
    if isMaximizing then me else OppCellType(me)
  }

  /** The value an accumulator of a layer starts from. */
  function Initial(isMaximizing: bool): int {
    if isMaximizing then SCORE_MIN else SCORE_MAX
  }

  predicate AllEmpty(b: seq<int>, spots: seq<nat>) {
    forall k :: 0 <= k < |spots| ==> spots[k] < |b| && b[spots[k]] == CELL_EMPTY
  }

  /** The score the search gives a board for the robot playing `me`. A line of either
      marker ends the search; a full board is a draw; otherwise every empty cell is tried
      in row-major order and the best (maximizing) or worst (minimizing) result kept. */
  function Score(b: seq<int>, me: int, isMaximizing: bool): (r: int)
    requires IsBoard(b) && IsPlayerCellType(me)
    ensures IsScore(r)
    decreases |EmptyCells(b)|, 1, 0
  {
    var spots := EmptyCells(b);
    if Wins(b, CELL_X) || Wins(b, CELL_O) then
      (if isMaximizing then SCORE_LOSS else SCORE_WIN)
    else if |spots| == 0 then SCORE_DRAW
    else Fold(b, me, isMaximizing, spots, 0, Initial(isMaximizing))
  }

  /** The score of the board reached by the layer's marker on the empty cell `s`. */
  function Child(b: seq<int>, me: int, isMaximizing: bool, s: nat): (r: int)
    requires IsBoard(b) && IsPlayerCellType(me) && s < |b| && b[s] == CELL_EMPTY
    ensures IsScore(r)
    decreases |EmptyCells(b)|, 0, 0
  {
    EmptyCellsPlace(b, s, LayerCellType(me, isMaximizing));
    Score(b[s := LayerCellType(me, isMaximizing)], me, !isMaximizing)
  }

  /** The loop of one layer: combine `acc` with the child score of every spot from the
      `i`-th on, in order. */
  function Fold(b: seq<int>, me: int, isMaximizing: bool, spots: seq<nat>, i: nat, acc: int): (r: int)
    requires IsBoard(b) && IsPlayerCellType(me) && AllEmpty(b, spots) && i <= |spots|
    requires acc == Initial(isMaximizing) || IsScore(acc)
    ensures IsScore(r) || (i == |spots| && r == acc)
    decreases |EmptyCells(b)|, 0, |spots| - i
  {
    if i == |spots| then acc
    else
      var eval := Child(b, me, isMaximizing, spots[i]);
      Fold(b, me, isMaximizing, spots, i + 1, if isMaximizing then Max(acc, eval) else Min(acc, eval))
  }

  /** A maximizing fold is at least its accumulator and every child of spots[i..]. */
  lemma {:induction false} FoldMaxBound(b: seq<int>, me: int, spots: seq<nat>, i: nat, acc: int)
    requires IsBoard(b) && IsPlayerCellType(me) && AllEmpty(b, spots) && i <= |spots|
    requires acc == Initial(true) || IsScore(acc)
    ensures Fold(b, me, true, spots, i, acc) >= acc
    ensures forall k :: i <= k < |spots| ==> Fold(b, me, true, spots, i, acc) >= Child(b, me, true, spots[k])
    decreases |spots| - i
  {
    if i < |spots| {
      FoldMaxBound(b, me, spots, i + 1, Max(acc, Child(b, me, true, spots[i])));
    }
  }

  /** A minimizing fold is at most its accumulator and every child of spots[i..]. */
  lemma {:induction false} FoldMinBound(b: seq<int>, me: int, spots: seq<nat>, i: nat, acc: int)
    requires IsBoard(b) && IsPlayerCellType(me) && AllEmpty(b, spots) && i <= |spots|
    requires acc == Initial(false) || IsScore(acc)
    ensures Fold(b, me, false, spots, i, acc) <= acc
    ensures forall k :: i <= k < |spots| ==> Fold(b, me, false, spots, i, acc) <= Child(b, me, false, spots[k])
    decreases |spots| - i
  {
    if i < |spots| {
      FoldMinBound(b, me, spots, i + 1, Min(acc, Child(b, me, false, spots[i])));
    }
  }

  /** A fold returns its accumulator or the child score of one of spots[i..]. */
  lemma {:induction false} FoldAttained(b: seq<int>, me: int, isMaximizing: bool, spots: seq<nat>, i: nat, acc: int)
    requires IsBoard(b) && IsPlayerCellType(me) && AllEmpty(b, spots) && i <= |spots|
    requires acc == Initial(isMaximizing) || IsScore(acc)
    ensures var r := Fold(b, me, isMaximizing, spots, i, acc);
      r == acc || exists k :: i <= k < |spots| && r == Child(b, me, isMaximizing, spots[k])
    decreases |spots| - i
  {
    if i < |spots| {
      var eval := Child(b, me, isMaximizing, spots[i]);
      var acc' := if isMaximizing then Max(acc, eval) else Min(acc, eval);
      FoldAttained(b, me, isMaximizing, spots, i + 1, acc');
      assert acc' == acc || acc' == eval;
    }
  }

  /** Minimax: on a board where the game goes on, the score is the largest (maximizing)
      or smallest (minimizing) child score over the empty cells, and some empty cell
      attains it. */
  lemma ScoreIsMinimax(b: seq<int>, me: int, isMaximizing: bool)
    requires IsBoard(b) && IsPlayerCellType(me)
    requires !Wins(b, CELL_X) && !Wins(b, CELL_O)
    requires exists s :: 0 <= s < CELLS && b[s] == CELL_EMPTY
    ensures forall s :: 0 <= s < CELLS && b[s] == CELL_EMPTY ==>
      if isMaximizing then Score(b, me, isMaximizing) >= Child(b, me, isMaximizing, s)
      else Score(b, me, isMaximizing) <= Child(b, me, isMaximizing, s)
    ensures exists s :: 0 <= s < CELLS && b[s] == CELL_EMPTY && Score(b, me, isMaximizing) == Child(b, me, isMaximizing, s)
  {
    var spots := EmptyCells(b);
    var e :| 0 <= e < CELLS && b[e] == CELL_EMPTY;
    assert e in spots;
    if isMaximizing {
      FoldMaxBound(b, me, spots, 0, Initial(true));
    } else {
      FoldMinBound(b, me, spots, 0, Initial(false));
    }
    FoldAttained(b, me, isMaximizing, spots, 0, Initial(isMaximizing));
    var r := Score(b, me, isMaximizing);
    assert r == Fold(b, me, isMaximizing, spots, 0, Initial(isMaximizing));
    forall s | 0 <= s < CELLS && b[s] == CELL_EMPTY
      ensures if isMaximizing then r >= Child(b, me, isMaximizing, s) else r <= Child(b, me, isMaximizing, s)
    {
      assert s in spots;
      var k :| 0 <= k < |spots| && spots[k] == s;
    }
    assert r != Initial(isMaximizing);
    var k :| 0 <= k < |spots| && r == Child(b, me, isMaximizing, spots[k]);
    assert spots[k] in spots;
  }

  /** A candidate move of the robot: an empty position and its score. */
  datatype Move = Move(spot: Pos, score: int)

  /** The first loop of `getNextBestMove`: every empty cell in row-major order, scored by
      placing the robot's marker there and searching on with a minimizing layer. */
  function MoveScores(b: seq<int>, me: int): (ms: seq<Move>)
    requires IsBoard(b) && IsPlayerCellType(me)
    ensures |ms| == |EmptyCells(b)|
    ensures forall k :: 0 <= k < |ms| ==>
      ms[k] == Move(EmptyCells(b)[k], Child(b, me, true, EmptyCells(b)[k]))
  {
    var spots := EmptyCells(b);
    seq(|spots|, k requires 0 <= k < |spots| =>
      assert spots[k] in spots;
      Move(spots[k], Child(b, me, true, spots[k])))
  }

  /** The second loop of `getNextBestMove`: keep the first move whose score is strictly
      higher than every score seen before it. */
  function PickBest(ms: seq<Move>, best: Option<Move>, bestScore: int): Option<Move> {
    if ms == [] then best
    else if ms[0].score > bestScore then PickBest(ms[1..], Some(ms[0]), ms[0].score)
    else PickBest(ms[1..], best, bestScore)
  }

  /** The move `getNextBestMove` returns; None stands for its default move, which it
      returns only when there is no empty cell. */
  function BestMove(b: seq<int>, me: int): Option<Move>
    requires IsBoard(b) && IsPlayerCellType(me)
  {
    PickBest(MoveScores(b, me), None, SCORE_MIN)
  }

  /** Selection keeps the starting move when no score exceeds the starting score. */
  lemma {:induction false} PickBestKeeps(ms: seq<Move>, best: Option<Move>, bestScore: int)
    requires forall k :: 0 <= k < |ms| ==> ms[k].score <= bestScore
    ensures PickBest(ms, best, bestScore) == best
  {
    if ms != [] {
      assert forall k :: 0 <= k < |ms| - 1 ==> ms[1..][k] == ms[k + 1];
      PickBestKeeps(ms[1..], best, bestScore);
    }
  }

  /** `ms[j]` is the first move of maximal score, and that score beats `bestScore`. */
  predicate FirstMaxAt(ms: seq<Move>, j: nat, bestScore: int) {
    && j < |ms|
    && ms[j].score > bestScore
    && (forall k :: 0 <= k < |ms| ==> ms[k].score <= ms[j].score)
    && (forall k :: 0 <= k < j ==> ms[k].score < ms[j].score)
  }

  /** A first maximum of the tail that beats both the head and `bestScore` is a first
      maximum of the whole sequence. */
  lemma FirstMaxShift(ms: seq<Move>, j: nat, bestScore: int, bound: int)
    requires |ms| > 0 && FirstMaxAt(ms[1..], j, bound)
    requires bestScore <= bound && ms[0].score <= bound
    ensures FirstMaxAt(ms, j + 1, bestScore)
  {
    assert forall k :: 1 <= k < |ms| ==> ms[k] == ms[1..][k - 1];
  }

  /** The head is the first maximum when nothing after it scores higher. */
  lemma FirstMaxHead(ms: seq<Move>, bestScore: int)
    requires |ms| > 0 && ms[0].score > bestScore
    requires forall k :: 0 <= k < |ms| - 1 ==> ms[1..][k].score <= ms[0].score
    ensures FirstMaxAt(ms, 0, bestScore)
  {
    assert forall k :: 1 <= k < |ms| ==> ms[k] == ms[1..][k - 1];
  }

  /** Selection finds the first move of maximal score once some score beats the start. */
  lemma {:induction false} PickBestFinds(ms: seq<Move>, best: Option<Move>, bestScore: int)
    requires exists k :: 0 <= k < |ms| && ms[k].score > bestScore
    ensures exists j: nat :: FirstMaxAt(ms, j, bestScore) && PickBest(ms, best, bestScore) == Some(ms[j])
  {
    var tail := ms[1..];
    var r := PickBest(ms, best, bestScore);
    if ms[0].score > bestScore {
      if exists k :: 0 <= k < |tail| && tail[k].score > ms[0].score {
        PickBestFinds(tail, Some(ms[0]), ms[0].score);
        var j: nat :| FirstMaxAt(tail, j, ms[0].score) && r == Some(tail[j]);
        FirstMaxShift(ms, j, bestScore, ms[0].score);
        assert r == Some(ms[j + 1]);
      } else {
        PickBestKeeps(tail, Some(ms[0]), ms[0].score);
        FirstMaxHead(ms, bestScore);
      }
    } else {
      var k :| 0 <= k < |ms| && ms[k].score > bestScore;
      assert tail[k - 1] == ms[k];
      PickBestFinds(tail, best, bestScore);
      var j: nat :| FirstMaxAt(tail, j, bestScore) && r == Some(tail[j]);
      FirstMaxShift(ms, j, bestScore, bestScore);
      assert r == Some(ms[j + 1]);
    }
  }

  /** Only a full board gives the default move. */
  lemma BestMoveNone(b: seq<int>, me: int)
    requires IsBoard(b) && IsPlayerCellType(me)
    ensures BestMove(b, me).None? <==> forall s :: 0 <= s < CELLS ==> b[s] != CELL_EMPTY
  {
    var spots := EmptyCells(b);
    var ms := MoveScores(b, me);
    if ms == [] {
      forall s | 0 <= s < CELLS ensures b[s] != CELL_EMPTY {
        assert s !in spots;
      }
    } else {
        assert ms[0].score > SCORE_MIN;
      PickBestFinds(ms, None, SCORE_MIN);
    }
  }

  /** What `getNextBestMove` promises of the move it returns: an empty cell whose score is
      maximal over all empty cells and strictly above the score of every empty cell before
      it in row-major order. */
  lemma BestMoveIsFirstMaximal(b: seq<int>, me: int)
    requires IsBoard(b) && IsPlayerCellType(me)
    requires BestMove(b, me).Some?
    ensures var m := BestMove(b, me).value;
      && b[m.spot] == CELL_EMPTY
      && m.score == Child(b, me, true, m.spot)
      && (forall s :: 0 <= s < CELLS && b[s] == CELL_EMPTY ==> Child(b, me, true, s) <= m.score)
      && (forall s :: 0 <= s < m.spot && b[s] == CELL_EMPTY ==> Child(b, me, true, s) < m.score)
  {
    var spots := EmptyCells(b);
    var ms := MoveScores(b, me);
    assert |ms| > 0;
    assert ms[0].score > SCORE_MIN;
    PickBestFinds(ms, None, SCORE_MIN);
    var j: nat :| FirstMaxAt(ms, j, SCORE_MIN) && BestMove(b, me) == Some(ms[j]);
    forall s | 0 <= s < CELLS && b[s] == CELL_EMPTY
      ensures Child(b, me, true, s) <= ms[j].score
      ensures s < spots[j] ==> Child(b, me, true, s) < ms[j].score
    {
      assert s in spots;
      var k :| 0 <= k < |spots| && spots[k] == s;
      assert ms[k].score == Child(b, me, true, s);
      assert j <= k ==> spots[j] <= spots[k];
    }
  }

  /** What `getNextBestMove` promises: the default move exactly on a full board, and
      otherwise an empty cell of maximal score that comes first among the maximal ones. */
  predicate BestMoveMeaning(b: seq<int>, me: int, best: Option<Move>)
    requires IsBoard(b) && IsPlayerCellType(me)
  {
    && (best.None? <==> forall s :: 0 <= s < CELLS ==> b[s] != CELL_EMPTY)
    && (best.Some? ==>
      && b[best.value.spot] == CELL_EMPTY
      && best.value.score == Child(b, me, true, best.value.spot)
      && (forall s :: 0 <= s < CELLS && b[s] == CELL_EMPTY ==> Child(b, me, true, s) <= best.value.score)
      && (forall s :: 0 <= s < best.value.spot && b[s] == CELL_EMPTY ==> Child(b, me, true, s) < best.value.score))
  }

  lemma BestMoveMeans(b: seq<int>, me: int)
    requires IsBoard(b) && IsPlayerCellType(me)
    ensures BestMoveMeaning(b, me, BestMove(b, me))
  {
    BestMoveNone(b, me);
    if BestMove(b, me).Some? {
      BestMoveIsFirstMaximal(b, me);
    }
  }

  /** The best move's score is the score of the board for a maximizing layer. */
  lemma BestMoveScoreIsMaxLayer(b: seq<int>, me: int)
    requires IsBoard(b) && IsPlayerCellType(me)
    requires !Wins(b, CELL_X) && !Wins(b, CELL_O)
    requires exists s :: 0 <= s < CELLS && b[s] == CELL_EMPTY
    ensures BestMove(b, me).Some? && BestMove(b, me).value.score == Score(b, me, true)
  {
    BestMoveNone(b, me);
    BestMoveIsFirstMaximal(b, me);
    ScoreIsMinimax(b, me, true);
    var m := BestMove(b, me).value;
    var s :| 0 <= s < CELLS && b[s] == CELL_EMPTY && Score(b, me, true) == Child(b, me, true, s);
  }

  /** The board after `MoveNext`: a HARD robot puts its seat's marker on the best move
      (the default move of a full board leaves the board as it is); EASY and MEDIUM robots
      and humans do not move. */
  function RobotMove(p: Player, b: seq<int>): (r: seq<int>)
    requires IsBoard(b) && p.Valid()
    ensures IsBoard(r)
    ensures !(p.PlayerRobot? && p.level == Hard) ==> r == b
  {
    match p
    case PlayerHuman(_, _) => b
    case PlayerRobot(isFirst, cellType, level) =>
      if level == Hard then
        match BestMove(b, cellType)
        case Some(m) => b[m.spot := MarkerFor(isFirst)]
        case None => b
      else b
  }

  /** A HARD robot facing an empty cell puts its own marker on exactly one empty cell, the
      best move. */
  lemma RobotMovePlaces(p: Player, b: seq<int>)
    requires IsBoard(b) && p.Valid() && p.PlayerRobot? && p.level == Hard
    requires exists s :: 0 <= s < CELLS && b[s] == CELL_EMPTY
    ensures BestMove(b, p.cellType).Some?
    ensures var s := BestMove(b, p.cellType).value.spot;
      b[s] == CELL_EMPTY && RobotMove(p, b) == b[s := p.cellType]
  {
    BestMoveNone(b, p.cellType);
    BestMoveIsFirstMaximal(b, p.cellType);
  }

  /** One branch of a search loop: put `cellType` on the empty cell `spot`, score the
      result with the next layer, and reset the cell to EMPTY. */
  method PlaceAndScore(robot: Player, board: Board, depth: int, spot: nat, cellType: int, isMaximizing: bool)
    returns (eval: int)
    requires board.Valid() && IsPlayerCellType(robot.cellType) && IsPlayerCellType(cellType)
    requires spot < CELLS && board.cells[spot] == CELL_EMPTY
    modifies board.cells
    ensures board.cells[..] == old(board.cells[..])
    ensures eval == Score(old(board.cells[..])[spot := cellType], robot.cellType, isMaximizing)
    decreases |EmptyCells(board.cells[..])|, 0
  {
    ghost var b0 := board.cells[..];
    board.cells[spot] := cellType;
    assert board.cells[..] == b0[spot := cellType];
    EmptyCellsPlace(b0, spot, cellType);
    eval := MiniMaxMove(robot, board, depth, isMaximizing);
    board.cells[spot] := CELL_EMPTY;
    assert board.cells[..] == b0;
  }

  /** `miniMaxMove`: scores the board by exhaustive search, using the board as scratch
      space and leaving it as it found it. `depth` is passed down but never read. */
  method MiniMaxMove(robot: Player, board: Board, depth: int, isMaximizing: bool) returns (score: int)
    requires board.Valid() && IsPlayerCellType(robot.cellType)
    modifies board.cells
    ensures board.cells[..] == old(board.cells[..])
    ensures score == Score(old(board.cells[..]), robot.cellType, isMaximizing)
    ensures (Wins(old(board.cells[..]), CELL_X) || Wins(old(board.cells[..]), CELL_O)) ==>
      score == if isMaximizing then SCORE_LOSS else SCORE_WIN
    ensures (!Wins(old(board.cells[..]), CELL_X) && !Wins(old(board.cells[..]), CELL_O) &&
      forall s :: 0 <= s < CELLS ==> old(board.cells[s]) != CELL_EMPTY) ==> score == SCORE_DRAW
    ensures IsScore(score)
    decreases |EmptyCells(board.cells[..])|, 2
  {
    FullIffNoEmptyCells(board.cells[..]);
    var availSpots := board.GetEmptyCells();
    if board.CheckWin(CELL_X) || board.CheckWin(CELL_O) {
      if isMaximizing {
        return SCORE_LOSS;
      } else {
        return SCORE_WIN;
      }
    } else if |availSpots| == 0 {
      return SCORE_DRAW;
    }
    if isMaximizing {
      score := MaxLayer(robot, board, depth, availSpots);
    } else {
      score := MinLayer(robot, board, depth, availSpots);
    }
  }

  /** The maximizing loop of `miniMaxMove`: the robot's marker on each spot in turn. */
  method MaxLayer(robot: Player, board: Board, depth: int, availSpots: seq<nat>) returns (maxEval: int)
    requires board.Valid() && IsPlayerCellType(robot.cellType)
    requires availSpots == EmptyCells(board.cells[..])
    modifies board.cells
    ensures board.cells[..] == old(board.cells[..])
    ensures maxEval == Fold(old(board.cells[..]), robot.cellType, true, availSpots, 0, SCORE_MIN)
    decreases |EmptyCells(board.cells[..])|, 1
  {
    ghost var b0 := board.cells[..];
    var me := robot.cellType;
    maxEval := SCORE_MIN;
    for i := 0 to |availSpots|
      invariant board.cells[..] == b0
      invariant maxEval == Initial(true) || IsScore(maxEval)
      invariant Fold(b0, me, true, availSpots, i, maxEval) == Fold(b0, me, true, availSpots, 0, SCORE_MIN)
    {
      // after the maximizing player's move it is the minimizing player's turn
      var eval := PlaceAndScore(robot, board, depth + 1, availSpots[i], me, false);
      maxEval := Max(maxEval, eval);
    }
  }

  /** The minimizing loop of `miniMaxMove`: the opponent's marker on each spot in turn. */
  method MinLayer(robot: Player, board: Board, depth: int, availSpots: seq<nat>) returns (minEval: int)
    requires board.Valid() && IsPlayerCellType(robot.cellType)
    requires availSpots == EmptyCells(board.cells[..])
    modifies board.cells
    ensures board.cells[..] == old(board.cells[..])
    ensures minEval == Fold(old(board.cells[..]), robot.cellType, false, availSpots, 0, SCORE_MAX)
    decreases |EmptyCells(board.cells[..])|, 1
  {
    ghost var b0 := board.cells[..];
    var me := robot.cellType;
    var opp := OppCellType(me);  // getOppPlayerCellType
    minEval := SCORE_MAX;
    for i := 0 to |availSpots|
      invariant board.cells[..] == b0
      invariant minEval == Initial(false) || IsScore(minEval)
      invariant Fold(b0, me, false, availSpots, i, minEval) == Fold(b0, me, false, availSpots, 0, SCORE_MAX)
    {
      // after the minimizing player's move it is the maximizing player's turn
      var eval := PlaceAndScore(robot, board, depth + 1, availSpots[i], opp, true);
      minEval := Min(minEval, eval);
    }
  }

  /** `getNextBestMove`: scores every empty cell by trying the robot's marker there, then
      keeps the first move of strictly highest score. The board is left unchanged. */
  method GetNextBestMove(robot: Player, board: Board) returns (best: Option<Move>)
    requires board.Valid() && IsPlayerCellType(robot.cellType)
    modifies board.cells
    ensures board.cells[..] == old(board.cells[..])
    ensures best == BestMove(old(board.cells[..]), robot.cellType)
    ensures BestMoveMeaning(old(board.cells[..]), robot.cellType, best)
  {
    ghost var b0 := board.cells[..];
    var me := robot.cellType;
    ghost var ms := MoveScores(b0, me);

    var availSpots := board.GetEmptyCells();
    var nextMoves: seq<Move> := [];
    for i := 0 to |availSpots|
      invariant board.cells[..] == b0
      invariant |nextMoves| == i
      invariant forall k :: 0 <= k < i ==> nextMoves[k] == ms[k]
    {
      var spot := availSpots[i];
      // the robot has moved; the search goes on with the opponent minimizing
      var score := PlaceAndScore(robot, board, 0, spot, me, false);
      nextMoves := nextMoves + [Move(spot, score)];
    }
    assert nextMoves == ms;

    best := SelectBest(nextMoves);
    BestMoveMeans(b0, me);
  }

  /** The second loop of `getNextBestMove`: the first move whose score is strictly
      higher than all before it and SCORE_MIN. */
  method SelectBest(nextMoves: seq<Move>) returns (best: Option<Move>)
    ensures best == PickBest(nextMoves, None, SCORE_MIN)
    ensures best.None? <==> forall k :: 0 <= k < |nextMoves| ==> nextMoves[k].score <= SCORE_MIN
    ensures best.Some? ==> exists j: nat :: FirstMaxAt(nextMoves, j, SCORE_MIN) && best == Some(nextMoves[j])
  {
    best := None;
    var bestScore := SCORE_MIN;
    for i := 0 to |nextMoves|
      invariant PickBest(nextMoves[i..], best, bestScore) == PickBest(nextMoves, None, SCORE_MIN)
    {
      assert nextMoves[i..][1..] == nextMoves[i + 1..];
      if nextMoves[i].score > bestScore {
        bestScore := nextMoves[i].score;
        best := Some(nextMoves[i]);
      }
    }
    if exists k :: 0 <= k < |nextMoves| && nextMoves[k].score > SCORE_MIN {
      PickBestFinds(nextMoves, None, SCORE_MIN);
    } else {
      PickBestKeeps(nextMoves, None, SCORE_MIN);
    }
  }

  /** `MoveNextHard`: the robot puts its seat's marker on the best move's cell. With no
      empty cell there is no best move and the board stays as it is. */
  method MoveNextHard(robot: Player, board: Board)
    requires board.Valid() && robot.Valid()
    modifies board.cells
    ensures robot.PlayerRobot? && robot.level == Hard ==>
      board.cells[..] == RobotMove(robot, old(board.cells[..]))
    ensures match BestMove(old(board.cells[..]), robot.cellType)
      case Some(m) => board.cells[..] == old(board.cells[..])[m.spot := robot.cellType]
      case None => board.cells[..] == old(board.cells[..])
  {
    var bestMove := GetNextBestMove(robot, board);
    if bestMove.Some? {
      var cell := MarkerFor(robot.isFirst);
      board.cells[bestMove.value.spot] := cell;
    }
  }

  /** `MoveNext`: a human's is empty; a robot moves only at the HARD level. */
  method MoveNext(player: Player, board: Board)
    requires board.Valid() && player.Valid()
    modifies board.cells
    ensures board.cells[..] == RobotMove(player, old(board.cells[..]))
  {
    match player
    case PlayerHuman(_, _) =>
    case PlayerRobot(_, _, level) =>
      match level
      case Easy =>
      case Medium =>
      case Hard => MoveNextHard(player, board);
  }
}
