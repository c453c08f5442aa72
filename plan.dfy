/**
 * MinesPlan: the plan as the source stores it, three width × height boolean matrices
 * updated in place. It enforces geometry only: every coordinate-taking operation fails
 * with BadCoords off the plan and changes nothing then.
 */
module Plan {
  import opened Cells
  import opened Errors
  import opened Boards

  /** The cells where a matrix holds true. */
  ghost function CellsOf(a: array2<bool>): (s: set<Cell>)
    reads a
  {
    set c | c in AllCells(a.Length0, a.Length1) && a[c.0, c.1]
  }

  /** A freshly allocated w × h matrix with every entry set to v by a nested loop. */
  method NewMatrix(w: int, h: int, v: bool) returns (a: array2<bool>)
    requires 0 <= w && 0 <= h
    ensures fresh(a) && a.Length0 == w && a.Length1 == h
    ensures CellsOf(a) == if v then AllCells(w, h) else {}
  {
    a := new bool[w, h];
    for x := 0 to w
      invariant forall u, t :: 0 <= u < x && 0 <= t < h ==> a[u, t] == v
    {
      for y := 0 to h
        invariant forall u, t :: 0 <= u < x && 0 <= t < h ==> a[u, t] == v
        invariant forall t :: 0 <= t < y ==> a[x, t] == v
      {
        a[x, y] := v;
      }
    }
  }

  /**
   * The scan of getNumberOfMines(x, y) over the 3 × 3 window: counts the true entries of a
   * around (x, y), skipping offsets off the matrix and the centre itself.
   */
  method CountNeighbourMines(a: array2<bool>, x: int, y: int) returns (n: int)
    requires 0 <= x < a.Length0 && 0 <= y < a.Length1
    ensures n == |Neighbours(a.Length0, a.Length1, (x, y)) * CellsOf(a)|
  {
    ghost var s := Neighbours(a.Length0, a.Length1, (x, y)) * CellsOf(a);
    WindowWithin(a.Length0, a.Length1, (x, y), CellsOf(a));
    n := 0;
    for i := -1 to 2
      invariant n == |Before(s, x + i, y - 1)|
    {
      for j := -1 to 2
        invariant n == |Before(s, x + i, y + j)|
      {
        BeforeStep(s, x + i, y + j, y + (j + 1));
        NeighbourAt(a.Length0, a.Length1, (x, y), CellsOf(a), i, j);
        if x + i < 0 || x + i >= a.Length0 || y + j < 0 || y + j >= a.Length1 {
          continue;
        }
        if a[x + i, y + j] && !(i == 0 && j == 0) {
          n := n + 1;
        }
      }
      BeforeNextColumn(s, x + i, x + (i + 1), x - 1, x + 2, y - 1, y + 2);
    }
    BeforeBounds(s, x - 1, x + 2, y - 1, y + 2);
  }

  class MinesPlan {
    const width: int
    const height: int
    var mines: array2<bool>
    var hidden: array2<bool>
    var marked: array2<bool>

    /** Dimensions at least 2, three distinct matrices of exactly width × height. */
    ghost predicate Valid()
      reads this
    {
      2 <= width && 2 <= height &&
      mines.Length0 == width && mines.Length1 == height &&
      hidden.Length0 == width && hidden.Length1 == height &&
      marked.Length0 == width && marked.Length1 == height &&
      mines != hidden && mines != marked && hidden != marked
    }

    /** The plan as a value. */
    ghost function Model(): (b: Board)
      reads this, mines, hidden, marked
      requires Valid()
      ensures b.Valid() && b.width == width && b.height == height
    {
      Board(width, height, CellsOf(mines), CellsOf(hidden), CellsOf(marked))
    }

    predicate InRange(x: int, y: int) {
      0 <= x < width && 0 <= y < height
    }

    /** A clear w × h plan; the source's MinesPlan(w, h) after its dimension checks. */
    constructor (w: int, h: int)
      requires 2 <= w && 2 <= h
      ensures Valid() && Model() == Empty(w, h)
      ensures fresh(mines) && fresh(hidden) && fresh(marked)
    {
      width, height := w, h;
      var m := NewMatrix(w, h, false);
      var k := NewMatrix(w, h, false);
      var c := NewMatrix(w, h, true);
      mines, marked, hidden := m, k, c;
    }

    /** The default constructor: a clear 2 × 2 plan. */
    constructor Default()
      ensures Valid() && Model() == Empty(2, 2)
      ensures fresh(mines) && fresh(hidden) && fresh(marked)
    {
      width, height := 2, 2;
      var m := NewMatrix(2, 2, false);
      var k := NewMatrix(2, 2, false);
      var c := NewMatrix(2, 2, true);
      mines, marked, hidden := m, k, c;
    }

    /** MinesPlan(w, h): BadNumber unless both dimensions are at least 2, else a clear plan. */
    static method Create(w: int, h: int) returns (r: Result<MinesPlan>)
      ensures r.Err? <==> w < 2 || h < 2
      ensures r.Err? ==> r.error == BadNumber
      ensures r.Ok? ==> fresh(r.value) && fresh(r.value.mines) && fresh(r.value.hidden) && fresh(r.value.marked)
      ensures r.Ok? ==> r.value.Valid() && r.value.Model() == Empty(w, h)
    {
      if w < 2 {
        return Err(BadNumber);
      }
      if h < 2 {
        return Err(BadNumber);
      }
      var p := new MinesPlan(w, h);
      return Ok(p);
    }

    /** Removes every mine; covers and marks are untouched. */
    method ClearAllMines()
      requires Valid()
      modifies this
      ensures Valid() && fresh(mines) && hidden == old(hidden) && marked == old(marked)
      ensures Model() == ClearedMines(old(Model()))
    {
      mines := NewMatrix(width, height, false);
    }

    /** Removes every mark; mines and covers are untouched. */
    method ClearAllMarks()
      requires Valid()
      modifies this
      ensures Valid() && fresh(marked) && mines == old(mines) && hidden == old(hidden)
      ensures Model() == ClearedMarks(old(Model()))
    {
      marked := NewMatrix(width, height, false);
    }

    /** Covers every cell; mines and marks are untouched. */
    method CoverAll()
      requires Valid()
      modifies this
      ensures Valid() && fresh(hidden) && mines == old(mines) && marked == old(marked)
      ensures Model() == CoveredAll(old(Model()))
    {
      hidden := NewMatrix(width, height, true);
    }

    /** Uncovers every cell, in place; mines and marks are untouched. */
    method UncoverAll()
      requires Valid()
      modifies hidden
      ensures Valid()
      ensures Model() == UncoveredAll(old(Model()))
    {
      for x := 0 to width
        invariant forall u, t :: 0 <= u < x && 0 <= t < height ==> !hidden[u, t]
      {
        for y := 0 to height
          invariant forall u, t :: 0 <= u < x && 0 <= t < height ==> !hidden[u, t]
          invariant forall t :: 0 <= t < y ==> !hidden[x, t]
        {
          hidden[x, y] := false;
        }
      }
      assert CellsOf(hidden) == {};
    }

    /** isMineAt: whether (x, y) holds a mine; BadCoords off the plan. */
    function IsMineAt(x: int, y: int): (r: Result<bool>)
      reads this, mines
      requires Valid()
      ensures r == if InRange(x, y) then Ok((x, y) in CellsOf(mines)) else Err(BadCoords)
    {
      if x < 0 || x >= width then Err(BadCoords)
      else if y < 0 || y >= height then Err(BadCoords)
      else Ok(mines[x, y])
    }

    /** isCoveredAt: whether (x, y) is covered; BadCoords off the plan. */
    function IsCoveredAt(x: int, y: int): (r: Result<bool>)
      reads this, hidden
      requires Valid()
      ensures r == if InRange(x, y) then Ok((x, y) in CellsOf(hidden)) else Err(BadCoords)
    {
      if x < 0 || x >= width then Err(BadCoords)
      else if y < 0 || y >= height then Err(BadCoords)
      else Ok(hidden[x, y])
    }

    /** isMarkedAt: whether (x, y) is marked; BadCoords off the plan. */
    function IsMarkedAt(x: int, y: int): (r: Result<bool>)
      reads this, marked
      requires Valid()
      ensures r == if InRange(x, y) then Ok((x, y) in CellsOf(marked)) else Err(BadCoords)
    {
      if x < 0 || x >= width then Err(BadCoords)
      else if y < 0 || y >= height then Err(BadCoords)
      else Ok(marked[x, y])
    }

    /** getNumberOfMines(): the number of mine cells, at most width·height. */
    method GetNumberOfMines() returns (n: int)
      requires Valid()
      ensures n == |Model().mines|
      ensures 0 <= n <= width * height
    {
      ghost var s := CellsOf(mines);
      n := 0;
      for x := 0 to width
        invariant n == |Before(s, x, 0)|
      {
        for y := 0 to height
          invariant n == |Before(s, x, y)|
        {
          BeforeStep(s, x, y, y + 1);
          if mines[x, y] {
            n := n + 1;
          }
        }
        BeforeNextColumn(s, x, x + 1, 0, width, 0, height);
      }
      BeforeBounds(s, 0, width, 0, height);
      CountBounds(Model());
    }

    /** getNumberOfCovered(): the number of covered cells, at most width·height. */
    method GetNumberOfCovered() returns (n: int)
      requires Valid()
      ensures n == |Model().covered|
      ensures 0 <= n <= width * height
    {
      ghost var s := CellsOf(hidden);
      n := 0;
      for x := 0 to width
        invariant n == |Before(s, x, 0)|
      {
        for y := 0 to height
          invariant n == |Before(s, x, y)|
        {
          BeforeStep(s, x, y, y + 1);
          if hidden[x, y] {
            n := n + 1;
          }
        }
        BeforeNextColumn(s, x, x + 1, 0, width, 0, height);
      }
      BeforeBounds(s, 0, width, 0, height);
      CountBounds(Model());
    }

    /**
     * getNumberOfMines(x, y): the number of mines among the on-plan Moore neighbours of
     * (x, y), the cell itself excluded; BadCoords off the plan.
     */
    method GetNumberOfMinesAround(x: int, y: int) returns (r: Result<int>)
      requires Valid()
      ensures r == if InRange(x, y) then Ok(NeighbourMines(Model(), (x, y))) else Err(BadCoords)
      ensures r.Ok? ==> 0 <= r.value <= 8
    {
      if x < 0 || x >= width {
        return Err(BadCoords);
      }
      if y < 0 || y >= height {
        return Err(BadCoords);
      }
      var n := CountNeighbourMines(mines, x, y);
      assert CellsOf(mines) == Model().mines;
      return Ok(n);
    }

    /** setMineAt: puts a mine on (x, y); BadCoords off the plan. */
    method SetMineAt(x: int, y: int) returns (o: Outcome)
      requires Valid()
      modifies mines
      ensures Valid()
      ensures o == if InRange(x, y) then Pass else Fail(BadCoords)
      ensures Model() == if InRange(x, y) then WithMine(old(Model()), (x, y)) else old(Model())
    {
      if x < 0 || x >= width {
        return Fail(BadCoords);
      }
      if y < 0 || y >= height {
        return Fail(BadCoords);
      }
      mines[x, y] := true;
      assert CellsOf(mines) == old(CellsOf(mines)) + {(x, y)};
      return Pass;
    }

    /** clearMineAt: removes the mine from (x, y); BadCoords off the plan. */
    method ClearMineAt(x: int, y: int) returns (o: Outcome)
      requires Valid()
      modifies mines
      ensures Valid()
      ensures o == if InRange(x, y) then Pass else Fail(BadCoords)
      ensures Model() == if InRange(x, y) then WithoutMine(old(Model()), (x, y)) else old(Model())
    {
      if x < 0 || x >= width {
        return Fail(BadCoords);
      }
      if y < 0 || y >= height {
        return Fail(BadCoords);
      }
      mines[x, y] := false;
      assert CellsOf(mines) == old(CellsOf(mines)) - {(x, y)};
      return Pass;
    }

    /** uncover: uncovers (x, y) unconditionally; BadCoords off the plan. */
    method Uncover(x: int, y: int) returns (o: Outcome)
      requires Valid()
      modifies hidden
      ensures Valid()
      ensures o == if InRange(x, y) then Pass else Fail(BadCoords)
      ensures Model() == if InRange(x, y) then WithUncovered(old(Model()), (x, y)) else old(Model())
    {
      if x < 0 || x >= width {
        return Fail(BadCoords);
      }
      if y < 0 || y >= height {
        return Fail(BadCoords);
      }
      hidden[x, y] := false;
      assert CellsOf(hidden) == old(CellsOf(hidden)) - {(x, y)};
      return Pass;
    }

    /** mark: sets the mark of (x, y) to v; BadCoords off the plan. */
    method Mark(x: int, y: int, v: bool) returns (o: Outcome)
      requires Valid()
      modifies marked
      ensures Valid()
      ensures o == if InRange(x, y) then Pass else Fail(BadCoords)
      ensures Model() == if InRange(x, y) then WithMark(old(Model()), (x, y), v) else old(Model())
    {
      if x < 0 || x >= width {
        return Fail(BadCoords);
      }
      if y < 0 || y >= height {
        return Fail(BadCoords);
      }
      marked[x, y] := v;
      assert CellsOf(marked) == if v then old(CellsOf(marked)) + {(x, y)} else old(CellsOf(marked)) - {(x, y)};
      return Pass;
    }
  }
}
