/** The 3x3 board: pure definitions over a sequence of nine cell types, and the
    `Board` class whose arrays the game mutates in place. */
module Boards {
  import opened Game

  /** A board position: the row-major index row * SIZE + col of a cell. */
  type Pos = i: nat | i < 9

  /** The eight winning lines: three rows, three columns, two diagonals. */
  const LINES: seq<(Pos, Pos, Pos)> :=
    [(0, 1, 2), (3, 4, 5), (6, 7, 8), (0, 3, 6), (1, 4, 7), (2, 5, 8), (0, 4, 8), (2, 4, 6)]

  predicate IsBoard(b: seq<int>) {
    |b| == CELLS
  }

  predicate OwnsLine(b: seq<int>, line: (Pos, Pos, Pos), m: int)
    requires IsBoard(b)
  {
    b[line.0] == m && b[line.1] == m && b[line.2] == m
  }

  /** Reference definition of a win: some winning line holds `m` in all three cells. */
  predicate Wins(b: seq<int>, m: int)
    requires IsBoard(b)
  {
    exists k :: 0 <= k < |LINES| && OwnsLine(b, LINES[k], m)
  }

  /** The empty positions among the first `n`, in ascending order. */
  function EmptyUpTo(b: seq<int>, n: nat): (r: seq<nat>)
    requires n <= |b|
    ensures forall x :: x in r <==> 0 <= x < n && b[x] == CELL_EMPTY
    ensures forall j :: 0 <= j < |r| ==> r[j] < n && b[r[j]] == CELL_EMPTY
    ensures forall j, k :: 0 <= j < k < |r| ==> r[j] < r[k]
  {
    if n == 0 then []
    else
      var prefix := EmptyUpTo(b, n - 1);
      assert forall j :: 0 <= j < |prefix| ==> prefix[j] in prefix;
      prefix + (if b[n - 1] == CELL_EMPTY then [n - 1] else [])
  }

  /** Every empty position of the board, in row-major order. */
  function EmptyCells(b: seq<int>): seq<nat> {
    EmptyUpTo(b, |b|)
  }

  /** Putting a marker on an empty cell removes exactly that cell from the empty positions. */
  lemma {:induction false} EmptyUpToPlace(b: seq<int>, s: nat, m: int, n: nat)
    requires s < |b| && b[s] == CELL_EMPTY && m != CELL_EMPTY && n <= |b|
    ensures |EmptyUpTo(b[s := m], n)| == |EmptyUpTo(b, n)| - (if s < n then 1 else 0)
  {
    if n > 0 {
      EmptyUpToPlace(b, s, m, n - 1);
    }
  }

  lemma EmptyCellsPlace(b: seq<int>, s: nat, m: int)
    requires s < |b| && b[s] == CELL_EMPTY && m != CELL_EMPTY
    ensures |EmptyCells(b[s := m])| == |EmptyCells(b)| - 1
  {
    EmptyUpToPlace(b, s, m, |b|);
  }

  /** The board is full exactly when it has no empty position. */
  lemma FullIffNoEmptyCells(b: seq<int>)
    ensures EmptyCells(b) == [] <==> forall i :: 0 <= i < |b| ==> b[i] != CELL_EMPTY
  {
    if EmptyCells(b) != [] {
      assert EmptyCells(b)[0] in EmptyCells(b);
    }
  }

  /** The number of cells holding `m`. */
  function Count(b: seq<int>, m: int): (n: nat)
    ensures n <= |b|
  {
    if b == [] then 0 else (if b[0] == m then 1 else 0) + Count(b[1..], m)
  }

  /** Putting `m` on an empty cell adds one `m` and leaves the count of every other
      marker as it was. */
  lemma {:induction false} CountPlace(b: seq<int>, s: nat, m: int, o: int)
    requires s < |b| && b[s] == CELL_EMPTY && o != CELL_EMPTY
    ensures Count(b[s := m], o) == Count(b, o) + (if o == m then 1 else 0)
  {
    if s == 0 {
      assert b[s := m][1..] == b[1..];
    } else {
      assert b[s := m][1..] == b[1..][s - 1 := m];
      CountPlace(b[1..], s - 1, m, o);
    }
  }

  /** An empty board holds no marker. */
  lemma {:induction false} CountAllEmpty(b: seq<int>, o: int)
    requires forall k :: 0 <= k < |b| ==> b[k] == CELL_EMPTY
    requires o != CELL_EMPTY
    ensures Count(b, o) == 0
  {
    if b != [] {
      CountAllEmpty(b[1..], o);
    }
  }

  /** A board whose only marker is `m` on cell `s` holds one `m` and no other marker. */
  lemma CountSingle(b: seq<int>, s: nat, m: int, o: int)
    requires s < |b| && b[s] == m && m != CELL_EMPTY && o != CELL_EMPTY && o != m
    requires forall k :: 0 <= k < |b| && k != s ==> b[k] == CELL_EMPTY
    ensures Count(b, m) == 1 && Count(b, o) == 0
  {
    var e := b[s := CELL_EMPTY];
    assert e[s := m] == b;
    CountAllEmpty(e, m);
    CountAllEmpty(e, o);
    CountPlace(e, s, m, m);
    CountPlace(e, s, m, o);
  }

  /** Putting `m` on an empty cell gives no line to any other marker. */
  lemma PlaceKeepsOthersFromWinning(b: seq<int>, s: Pos, m: int, o: int)
    requires IsBoard(b) && b[s] == CELL_EMPTY && o != m && o != CELL_EMPTY && !Wins(b, o)
    ensures !Wins(b[s := m], o)
  {
  }

  /** `Wins` spelled out line by line, the form in which the source tests it. */
  lemma WinsByLine(b: seq<int>, m: int)
    requires IsBoard(b)
    ensures Wins(b, m) <==>
      (b[0] == m && b[1] == m && b[2] == m) ||
      (b[3] == m && b[4] == m && b[5] == m) ||
      (b[6] == m && b[7] == m && b[8] == m) ||
      (b[0] == m && b[3] == m && b[6] == m) ||
      (b[1] == m && b[4] == m && b[7] == m) ||
      (b[2] == m && b[5] == m && b[8] == m) ||
      (b[0] == m && b[4] == m && b[8] == m) ||
      (b[2] == m && b[4] == m && b[6] == m)
  {
    if Wins(b, m) {
      var k :| 0 <= k < |LINES| && OwnsLine(b, LINES[k], m);
      assert k in {0, 1, 2, 3, 4, 5, 6, 7};
    }
    if (b[0] == m && b[1] == m && b[2] == m) { assert OwnsLine(b, LINES[0], m); }
    if (b[3] == m && b[4] == m && b[5] == m) { assert OwnsLine(b, LINES[1], m); }
    if (b[6] == m && b[7] == m && b[8] == m) { assert OwnsLine(b, LINES[2], m); }
    if (b[0] == m && b[3] == m && b[6] == m) { assert OwnsLine(b, LINES[3], m); }
    if (b[1] == m && b[4] == m && b[7] == m) { assert OwnsLine(b, LINES[4], m); }
    if (b[2] == m && b[5] == m && b[8] == m) { assert OwnsLine(b, LINES[5], m); }
    if (b[0] == m && b[4] == m && b[8] == m) { assert OwnsLine(b, LINES[6], m); }
    if (b[2] == m && b[4] == m && b[6] == m) { assert OwnsLine(b, LINES[7], m); }
  }

  /** The source's `Board`: an array of cell types (one per CellButton's Cell) and the
      buttons' `isClicked` flags, both indexed row-major. */
  class Board {
    const cells: array<int>
    const clicked: array<bool>

    ghost predicate Valid() {
      cells.Length == CELLS && clicked.Length == CELLS
    }

    /** A new board: every cell empty and unclicked. */
    constructor ()
      ensures Valid() && fresh(cells) && fresh(clicked)
      ensures forall i :: 0 <= i < CELLS ==> cells[i] == CELL_EMPTY && !clicked[i]
    {
      cells := new int[CELLS](_ => CELL_EMPTY);
      clicked := new bool[CELLS](_ => false);
    }

    /** Whether `playerCellType` holds one of the eight lines. */
    function CheckWin(playerCellType: int): (r: bool)
      requires Valid()
      reads cells
      ensures r == Wins(cells[..], playerCellType)
    {
      var p := playerCellType;
      WinsByLine(cells[..], p);
      (cells[0] == p && cells[1] == p && cells[2] == p) ||
      (cells[3] == p && cells[4] == p && cells[5] == p) ||
      (cells[6] == p && cells[7] == p && cells[8] == p) ||
      (cells[0] == p && cells[3] == p && cells[6] == p) ||
      (cells[1] == p && cells[4] == p && cells[7] == p) ||
      (cells[2] == p && cells[5] == p && cells[8] == p) ||
      (cells[0] == p && cells[4] == p && cells[8] == p) ||
      (cells[2] == p && cells[4] == p && cells[6] == p)
    }

    /** The empty positions, each once, in ascending row-major order. */
    method GetEmptyCells() returns (emptyCells: seq<nat>)
      requires Valid()
      ensures emptyCells == EmptyCells(cells[..])
      ensures forall x :: x in emptyCells <==> 0 <= x < CELLS && cells[x] == CELL_EMPTY
      ensures forall j, k :: 0 <= j < k < |emptyCells| ==> emptyCells[j] < emptyCells[k]
    {
      emptyCells := [];
      for i := 0 to cells.Length
        invariant emptyCells == EmptyUpTo(cells[..], i)
      {
        if cells[i] == CELL_EMPTY {
          emptyCells := emptyCells + [i];
        }
      }
    }

    /** Resets the board for a new game. */
    method Clear()
      requires Valid()
      modifies cells, clicked
      ensures forall i :: 0 <= i < CELLS ==> cells[i] == CELL_EMPTY && !clicked[i]
    {
      for i := 0 to cells.Length
        invariant forall k :: 0 <= k < i ==> cells[k] == CELL_EMPTY && !clicked[k]
      {
        cells[i] := CELL_EMPTY;
        clicked[i] := false;
      }
    }
  }
}
