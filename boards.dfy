/**
 * The plan as a value: its dimensions and the three cell attributes, each a set of cells
 * (the cells where the source's boolean matrix holds true). Each primitive mutation of the
 * plan is a function here, and the lemmas state what the mutations do to the counters.
 */
module Boards {
  import opened Cells

  datatype Board = Board(width: int, height: int, mines: set<Cell>, covered: set<Cell>, marked: set<Cell>)
  {
    /** Dimensions at least 2 and every flagged cell on the plan. */
    predicate Valid() {
      2 <= width && 2 <= height &&
      mines <= AllCells(width, height) &&
      covered <= AllCells(width, height) &&
      marked <= AllCells(width, height)
    }

    predicate Contains(c: Cell) {
      OnBoard(width, height, c)
    }
  }

  /** A fresh plan: every cell covered, no mine, no mark. */
  function Empty(w: int, h: int): Board {
    Board(w, h, {}, AllCells(w, h), {})
  }

  function WithMine(b: Board, c: Cell): Board {
    b.(mines := b.mines + {c})
  }

  function WithoutMine(b: Board, c: Cell): Board {
    b.(mines := b.mines - {c})
  }

  function WithUncovered(b: Board, c: Cell): Board {
    b.(covered := b.covered - {c})
  }

  function WithMark(b: Board, c: Cell, v: bool): Board {
    b.(marked := if v then b.marked + {c} else b.marked - {c})
  }

  function ClearedMines(b: Board): Board {
    b.(mines := {})
  }

  function ClearedMarks(b: Board): Board {
    b.(marked := {})
  }

  function CoveredAll(b: Board): Board {
    b.(covered := AllCells(b.width, b.height))
  }

  function UncoveredAll(b: Board): Board {
    b.(covered := {})
  }

  /** No cell of the plan next to c holds a mine. */
  ghost predicate NoMineAround(b: Board, c: Cell) {
    forall d {:trigger Adjacent(c, d)} :: Adjacent(c, d) && b.Contains(d) ==> d !in b.mines
  }

  /** The number of mines among the on-board Moore neighbours of c, c itself excluded. */
  function NeighbourMines(b: Board, c: Cell): (n: nat)
    ensures b.Contains(c) ==> n <= 8
    ensures n == 0 <==> NoMineAround(b, c)
  {
    var s := Neighbours(b.width, b.height, c) * b.mines;
    if b.Contains(c) then
      NeighboursCard(b.width, b.height, c);
      SubsetCard(s, Neighbours(b.width, b.height, c));
      NeighbourMinesEmpty(b, c);
      |s|
    else
      NeighbourMinesEmpty(b, c);
      |s|
  }

  lemma NeighbourMinesEmpty(b: Board, c: Cell)
    ensures Neighbours(b.width, b.height, c) * b.mines == {} <==> NoMineAround(b, c)
  {
    forall d ensures d in Neighbours(b.width, b.height, c) <==> b.Contains(d) && Adjacent(c, d) {
      NeighbourIsAdjacent(b.width, b.height, c, d);
    }
  }

  /** The mine count and the covered count of a valid plan lie in [0, width·height]. */
  lemma CountBounds(b: Board)
    requires b.Valid()
    ensures |b.mines| <= b.width * b.height
    ensures |b.covered| <= b.width * b.height
    ensures |b.marked| <= b.width * b.height
  {
    AllCellsCard(b.width, b.height);
    SubsetCard(b.mines, AllCells(b.width, b.height));
    SubsetCard(b.covered, AllCells(b.width, b.height));
    SubsetCard(b.marked, AllCells(b.width, b.height));
  }

  /** A fresh w × h plan has w·h covered cells, and no mine or mark. */
  lemma EmptyCounts(w: int, h: int)
    requires 2 <= w && 2 <= h
    ensures Empty(w, h).Valid()
    ensures |Empty(w, h).covered| == w * h
    ensures |Empty(w, h).mines| == 0 && |Empty(w, h).marked| == 0
  {
    AllCellsCard(w, h);
  }

  /** Setting a mine twice is setting it once. */
  lemma WithMineIdempotent(b: Board, c: Cell)
    ensures WithMine(WithMine(b, c), c) == WithMine(b, c)
  {
  }

  /** Setting a mine on a mine-free cell and clearing it again restores the plan. */
  lemma WithoutMineUndoesWithMine(b: Board, c: Cell)
    requires c !in b.mines
    ensures WithoutMine(WithMine(b, c), c) == b
  {
    assert b.mines + {c} - {c} == b.mines;
  }

  /** Setting or clearing a mine moves the mine count by one exactly when the cell changes. */
  lemma MineCountChange(b: Board, c: Cell)
    ensures |WithMine(b, c).mines| == |b.mines| + (if c in b.mines then 0 else 1)
    ensures |WithoutMine(b, c).mines| == |b.mines| - (if c in b.mines then 1 else 0)
  {
  }

  /** Uncovering is idempotent and lowers the covered count by one iff the cell was covered. */
  lemma UncoverCount(b: Board, c: Cell)
    ensures WithUncovered(WithUncovered(b, c), c) == WithUncovered(b, c)
    ensures |WithUncovered(b, c).covered| == |b.covered| - (if c in b.covered then 1 else 0)
  {
  }

  /** Covering everything gives width·height covered cells; uncovering everything gives none. */
  lemma CoverAllCounts(b: Board)
    requires b.Valid()
    ensures CoveredAll(b).Valid() && UncoveredAll(b).Valid()
    ensures |CoveredAll(b).covered| == b.width * b.height
    ensures |UncoveredAll(b).covered| == 0
  {
    AllCellsCard(b.width, b.height);
  }

  /** Every primitive keeps a valid plan valid as long as it is applied on the plan. */
  lemma PrimitivesKeepValid(b: Board, c: Cell, v: bool)
    requires b.Valid() && b.Contains(c)
    ensures WithMine(b, c).Valid() && WithoutMine(b, c).Valid()
    ensures WithUncovered(b, c).Valid() && WithMark(b, c, v).Valid()
    ensures ClearedMines(b).Valid() && ClearedMarks(b).Valid()
  {
  }
}
