/** Cell coordinates, the regions of the plan the engine scans, and their sizes. */
module Cells {

  /** A cell (x, y); x indexes the width, y the height, as in the source's boolean[x][y]. */
  type Cell = (int, int)

  predicate OnBoard(w: int, h: int, c: Cell) {
    0 <= c.0 < w && 0 <= c.1 < h
  }

  /** c lies in columns [x0, x1) and rows [y0, y1). */
  predicate InBox(c: Cell, x0: int, x1: int, y0: int, y1: int) {
    x0 <= c.0 < x1 && y0 <= c.1 < y1
  }

  /** Every cell of a w × h plan. */
  function AllCells(w: int, h: int): (s: set<Cell>)
    ensures forall c :: c in s <==> OnBoard(w, h, c)
  {
    set x, y | 0 <= x < w && 0 <= y < h :: (x, y)
  }

  /** The nine cells of the 3 × 3 square centred on c. */
  function Square(c: Cell): set<Cell> {
    var (x, y) := c;
    {(x - 1, y - 1), (x - 1, y), (x - 1, y + 1),
     (x, y - 1), (x, y), (x, y + 1),
     (x + 1, y - 1), (x + 1, y), (x + 1, y + 1)}
  }

  /** The 3 × 3 window centred on c, clipped to the plan. */
  function Window(w: int, h: int, c: Cell): set<Cell> {
    set d | d in AllCells(w, h) && Near(c, d)
  }

  /** The up-to-eight Moore neighbours of c that lie on the plan; c itself is not one. */
  function Neighbours(w: int, h: int, c: Cell): set<Cell> {
    Window(w, h, c) - {c}
  }

  /** d lies in the 3 × 3 square centred on c. */
  predicate Near(c: Cell, d: Cell) {
    -1 <= d.0 - c.0 <= 1 && -1 <= d.1 - c.1 <= 1
  }

  /** d is one of the eight cells around c. */
  predicate Adjacent(c: Cell, d: Cell) {
    c != d && Near(c, d)
  }

  /** A scan with x outer and y inner that is about to visit (px, py) has visited d. */
  predicate ScannedBefore(d: Cell, px: int, py: int) {
    d.0 < px || (d.0 == px && d.1 < py)
  }

  /** All cells of s lie in columns [x0, x1) and rows [y0, y1). */
  predicate Within(s: set<Cell>, x0: int, x1: int, y0: int, y1: int) {
    forall c :: c in s ==> InBox(c, x0, x1, y0, y1)
  }

  /** The cells of s that a scan about to visit (px, py) has visited. */
  function Before(s: set<Cell>, px: int, py: int): set<Cell> {
    set c | c in s && ScannedBefore(c, px, py)
  }

  lemma NeighbourIsAdjacent(w: int, h: int, c: Cell, d: Cell)
    ensures d in Neighbours(w, h, c) <==> OnBoard(w, h, d) && Adjacent(c, d)
  {
  }

  /** The cell at offset (i, j) from c is a counted neighbour iff it is on the plan, is not c, and is in m. */
  lemma NeighbourAt(w: int, h: int, c: Cell, m: set<Cell>, i: int, j: int)
    requires -1 <= i <= 1 && -1 <= j <= 1
    ensures (c.0 + i, c.1 + j) in Neighbours(w, h, c) * m <==>
            OnBoard(w, h, (c.0 + i, c.1 + j)) && !(i == 0 && j == 0) && (c.0 + i, c.1 + j) in m
  {
    NeighbourIsAdjacent(w, h, c, (c.0 + i, c.1 + j));
  }

  lemma WindowWithin(w: int, h: int, c: Cell, m: set<Cell>)
    ensures Within(Neighbours(w, h, c) * m, c.0 - 1, c.0 + 2, c.1 - 1, c.1 + 2)
  {
    forall d | d in Neighbours(w, h, c) * m
      ensures InBox(d, c.0 - 1, c.0 + 2, c.1 - 1, c.1 + 2)
    {
      NeighbourIsAdjacent(w, h, c, d);
    }
  }

  /** Visiting one more cell adds it to the visited part exactly when it belongs to s. */
  lemma BeforeStep(s: set<Cell>, px: int, py: int, next: int)
    requires next == py + 1
    ensures |Before(s, px, next)| == |Before(s, px, py)| + (if (px, py) in s then 1 else 0)
  {
    if (px, py) in s {
      assert Before(s, px, next) == Before(s, px, py) + {(px, py)};
    } else {
      assert Before(s, px, next) == Before(s, px, py);
    }
  }

  /** Past the last row of s the scan moves on to the next column. */
  lemma BeforeNextColumn(s: set<Cell>, px: int, next: int, x0: int, x1: int, y0: int, y1: int)
    requires next == px + 1 && Within(s, x0, x1, y0, y1)
    ensures Before(s, px, y1) == Before(s, next, y0)
  {
  }

  /** Before any column of s is reached nothing is visited; past the last one all is. */
  lemma BeforeBounds(s: set<Cell>, x0: int, x1: int, y0: int, y1: int)
    requires Within(s, x0, x1, y0, y1)
    ensures Before(s, x0, y0) == {}
    ensures Before(s, x1, y0) == s
  {
  }

  lemma SubsetCard<T>(a: set<T>, b: set<T>)
    requires a <= b
    ensures |b - a| == |b| - |a|
    ensures |a| <= |b|
  {
    assert b == a + (b - a);
    assert a * (b - a) == {};
  }

  /** Removing x from a loses at most |x| elements. */
  lemma DiffCardLower<T>(a: set<T>, x: set<T>)
    ensures |a - x| >= |a| - |x|
  {
    assert a == (a - x) + (a * x);
    assert (a - x) * (a * x) == {};
    SubsetCard(a * x, x);
  }

  /** The cell at offset (i, j) from c lies in c's window iff it is on the plan. */
  lemma WindowAt(w: int, h: int, c: Cell, i: int, j: int)
    requires -1 <= i <= 1 && -1 <= j <= 1
    ensures (c.0 + i, c.1 + j) in Window(w, h, c) <==> OnBoard(w, h, (c.0 + i, c.1 + j))
  {
  }

  /** A cell near c on the plan lies in c's window. */
  lemma NearInWindow(w: int, h: int, c: Cell, d: Cell)
    requires Near(c, d) && OnBoard(w, h, d)
    ensures d in Window(w, h, c)
  {
    var i, j := d.0 - c.0, d.1 - c.1;
    assert d == (c.0 + i, c.1 + j);
    WindowAt(w, h, c, i, j);
  }

  /** A subset as large as its superset is the superset. */
  lemma SubsetEqualCard<T>(a: set<T>, b: set<T>)
    requires a <= b && |a| == |b|
    ensures a == b
  {
    SubsetCard(a, b);
    assert b - a == {};
  }

  /** Column x of a plan of height h, built cell by cell; only for counting. */
  function Column(x: int, h: int): set<Cell>
    decreases h
  {
    if h <= 0 then {} else Column(x, h - 1) + {(x, h - 1)}
  }

  /** The first w columns of a plan of height h, built column by column; only for counting. */
  function Columns(w: int, h: int): set<Cell>
    decreases w
  {
    if w <= 0 then {} else Columns(w - 1, h) + Column(w - 1, h)
  }

  lemma {:induction false} ColumnCard(x: int, h: nat)
    ensures |Column(x, h)| == h
    ensures forall c :: c in Column(x, h) <==> InBox(c, x, x + 1, 0, h)
  {
    if h > 0 {
      ColumnCard(x, h - 1);
      assert !InBox((x, h - 1), x, x + 1, 0, h - 1);
    }
  }

  lemma {:induction false} ColumnsMembers(w: int, h: nat)
    ensures forall c :: c in Columns(w, h) <==> InBox(c, 0, w, 0, h)
  {
    if w > 0 {
      ColumnsMembers(w - 1, h);
      ColumnCard(w - 1, h);
    }
  }

  /** The last of the first w columns shares no cell with the others. */
  lemma ColumnApart(w: int, h: nat)
    requires w > 0
    ensures Columns(w - 1, h) !! Column(w - 1, h)
  {
    ColumnsMembers(w - 1, h);
    ColumnCard(w - 1, h);
    var rest, col := Columns(w - 1, h), Column(w - 1, h);
    forall c | c in col ensures c !in rest {
      assert InBox(c, w - 1, w, 0, h);
    }
  }

  lemma {:induction false} ColumnsCard(w: nat, h: nat)
    ensures |Columns(w, h)| == w * h
  {
    if w > 0 {
      ColumnsCard(w - 1, h);
      ColumnCard(w - 1, h);
      ColumnApart(w, h);
      var rest, col := Columns(w - 1, h), Column(w - 1, h);
      assert |Columns(w, h)| == |rest| + |col|;
      RowStep(w, h);
    }
  }

  /** One more column adds h cells. */
  lemma RowStep(w: int, h: int)
    ensures (w - 1) * h + h == w * h
  {
  }

  /** A w × h plan has w·h cells. */
  lemma AllCellsCard(w: nat, h: nat)
    ensures |AllCells(w, h)| == w * h
  {
    ColumnsCard(w, h);
    ColumnsMembers(w, h);
    assert AllCells(w, h) == Columns(w, h);
  }

  /** A cell near c is one of the nine of c's square. */
  lemma NearInSquare(c: Cell, d: Cell)
    requires Near(c, d)
    ensures d in Square(c)
  {
    var i, j := d.0 - c.0, d.1 - c.1;
    assert d == (c.0 + i, c.1 + j);
  }

  /** The clipped window has at most nine cells, and holds its centre when that is on the plan. */
  lemma WindowCard(w: int, h: int, c: Cell)
    ensures |Window(w, h, c)| <= 9
    ensures OnBoard(w, h, c) ==> c in Window(w, h, c)
  {
    forall d | d in Window(w, h, c) ensures d in Square(c) {
      NearInSquare(c, d);
    }
    SubsetCard(Window(w, h, c), Square(c));
  }

  /** An on-board cell has at most eight neighbours. */
  lemma NeighboursCard(w: int, h: int, c: Cell)
    requires OnBoard(w, h, c)
    ensures |Neighbours(w, h, c)| <= 8
    ensures Neighbours(w, h, c) <= AllCells(w, h)
  {
    WindowCard(w, h, c);
  }

  /** A plan at least 2 × 2 has at least four cells. */
  lemma AreaBound(w: int, h: int)
    requires 2 <= w && 2 <= h
    ensures w * h >= 4
  {
  }
}
