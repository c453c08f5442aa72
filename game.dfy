/**
 * MinesGame: the rules engine over a MinesPlan. It derives the game status, toggles
 * marks, places mines, and uncovers cells with first-click relocation and the recursive
 * zero flood, each method proved against the rules on Board values.
 */
module Game {
  import opened Cells
  import opened Errors
  import opened Boards
  import opened Plan
  import opened Rules

  class MinesGame {
    var plan: MinesPlan

    /** A valid plan with at least one mine: what both constructors and setPlan demand. */
    ghost predicate Valid()
      reads this, plan, plan.mines, plan.hidden, plan.marked
    {
      plan.Valid() && |plan.Model().mines| >= 1
    }

    /** MinesGame(w, h, mines) past its checks: a fresh w × h plan with mines placed at random. */
    constructor (w: int, h: int, mines: int)
      requires 2 <= w && 2 <= h && 1 <= mines <= w * h - 1
      ensures Valid() && fresh(plan) && fresh(plan.mines) && fresh(plan.hidden) && fresh(plan.marked)
      ensures Placed(Empty(w, h), plan.Model(), mines)
      ensures StateOf(plan.Model()) == Playing
    {
      plan := new MinesPlan(w, h);
      new;
      EmptyCounts(w, h);
      var placed := PlaceMines(mines);
      AllCellsCard(w, h);
    }

    /** MinesGame(w, h, mines): BadNumber unless w, h >= 2 and 1 <= mines <= w·h − 1. */
    static method Create(w: int, h: int, mines: int) returns (r: Result<MinesGame>)
      ensures r.Err? <==> !(2 <= w && 2 <= h && 1 <= mines <= w * h - 1)
      ensures r.Err? ==> r.error == BadNumber
      ensures r.Ok? ==> fresh(r.value) && r.value.Valid() && Placed(Empty(w, h), r.value.plan.Model(), mines)
      ensures r.Ok? ==> StateOf(r.value.plan.Model()) == Playing
    {
      if w < 2 {
        return Err(BadNumber);
      }
      if h < 2 {
        return Err(BadNumber);
      }
      if mines < 1 || mines > w * h - 1 {
        return Err(BadNumber);
      }
      var g := new MinesGame(w, h, mines);
      return Ok(g);
    }

    /** MinesGame(plan) past its checks: adopts the plan as it is. */
    constructor FromPlan(p: MinesPlan)
      requires p.Valid() && |p.Model().mines| >= 1
      ensures Valid() && plan == p
    {
      plan := p;
    }

    /** MinesGame(plan): NullPlan for no plan, BadNumber for a plan without mines. */
    static method Adopt(p: MinesPlan?) returns (r: Result<MinesGame>)
      requires p != null ==> p.Valid()
      ensures p == null ==> r == Err(NullPlan)
      ensures p != null ==> (r.Err? <==> |p.Model().mines| == 0)
      ensures p != null && r.Err? ==> r.error == BadNumber
      ensures r.Ok? ==> fresh(r.value) && r.value.plan == p && r.value.Valid()
    {
      if p == null {
        return Err(NullPlan);
      }
      if p.width < 2 || p.height < 2 {
        return Err(BadNumber);
      }
      var n := p.GetNumberOfMines();
      if n == 0 {
        return Err(BadNumber);
      }
      var g := new MinesGame.FromPlan(p);
      return Ok(g);
    }

    /** setPlan: the checks of MinesGame(plan); on failure the current plan stays. */
    method SetPlan(p: MinesPlan?) returns (o: Outcome)
      requires Valid()
      requires p != null ==> p.Valid()
      modifies this
      ensures Valid()
      ensures p == null ==> o == Fail(NullPlan)
      ensures p != null ==> (o.Fail? <==> |p.Model().mines| == 0)
      ensures p != null && o.Fail? ==> o.error == BadNumber
      ensures plan == if o.Pass? then p else old(plan)
    {
      if p == null {
        return Fail(NullPlan);
      }
      if p.width < 2 || p.height < 2 {
        return Fail(BadNumber);
      }
      var n := p.GetNumberOfMines();
      if n == 0 {
        return Fail(BadNumber);
      }
      plan := p;
      return Pass;
    }

    /** getState: counts uncovered mines in a scan of the plan, then compares the covered and mine counts. */
    method GetState() returns (s: Status)
      requires plan.Valid()
      ensures s == StateOf(plan.Model())
    {
      ghost var b := plan.Model();
      ghost var exposed := b.mines - b.covered;
      var counter := 0;
      for i := 0 to plan.width
        invariant counter == |Before(exposed, i, 0)|
      {
        for j := 0 to plan.height
          invariant counter == |Before(exposed, i, j)|
        {
          BeforeStep(exposed, i, j, j + 1);
          var mine := plan.IsMineAt(i, j);
          var covered := plan.IsCoveredAt(i, j);
          if mine.value && !covered.value {
            counter := counter + 1;
          }
        }
        BeforeNextColumn(exposed, i, i + 1, 0, plan.width, 0, plan.height);
      }
      BeforeBounds(exposed, 0, plan.width, 0, plan.height);
      if counter > 0 {
        return Exploded;
      }
      var covered := plan.GetNumberOfCovered();
      assert plan.Model() == b;
      var mines := plan.GetNumberOfMines();
      assert plan.Model() == b;
      if covered == mines {
        return Done;
      }
      return Playing;
    }

    /** switchMarked: toggles the mark of a covered cell while the game is played. */
    method SwitchMarked(x: int, y: int) returns (o: Outcome)
      requires Valid()
      modifies plan.marked
      ensures Valid()
      ensures (o, plan.Model()) == SwitchMarkedEffect(old(plan.Model()), (x, y))
    {
      ghost var b := plan.Model();
      var s := GetState();
      assert plan.Model() == b;
      if s != Playing {
        return Pass;
      }
      if x < 0 || x >= plan.width {
        return Fail(BadCoords);
      }
      if y < 0 || y >= plan.height {
        return Fail(BadCoords);
      }
      var covered := plan.IsCoveredAt(x, y);
      if !covered.value {
        return Fail(WrongAction);
      }
      var marked := plan.IsMarkedAt(x, y);
      var done: Outcome;
      if marked.value {
        done := plan.Mark(x, y, false);
      } else {
        done := plan.Mark(x, y, true);
      }
      assert plan.Model() == WithMark(b, (x, y), !marked.value);
      return Pass;
    }

    /**
     * placeMines: BadNumber unless 1 <= count <= width·height − 1; otherwise count mines on
     * covered mine-free cells. Each cell is drawn by an arbitrary choice among the free ones.
     */
    method PlaceMines(count: int) returns (o: Outcome)
      requires plan.Valid()
      requires 1 <= count <= plan.width * plan.height - 1 ==> count <= |plan.Model().covered - plan.Model().mines|
      modifies plan.mines
      ensures plan.Valid()
      ensures o == if 1 <= count <= plan.width * plan.height - 1 then Pass else Fail(BadNumber)
      ensures o.Fail? ==> plan.Model() == old(plan.Model())
      ensures o.Pass? ==> Placed(old(plan.Model()), plan.Model(), count)
    {
      if count < 1 || count > plan.width * plan.height - 1 {
        return Fail(BadNumber);
      }
      ghost var b0 := plan.Model();
      var left := count;
      while left > 0
        invariant 0 <= left <= count
        invariant plan.Valid()
        invariant Placed(b0, plan.Model(), count - left)
        invariant left <= |plan.Model().covered - plan.Model().mines|
      {
        ghost var b := plan.Model();
        ghost var d :| d in b.covered - b.mines;
        assert plan.hidden[d.0, d.1] && !plan.mines[d.0, d.1];
        var rx, ry :| 0 <= rx < plan.width && 0 <= ry < plan.height && !plan.mines[rx, ry] && plan.hidden[rx, ry];
        var put := plan.SetMineAt(rx, ry);
        assert plan.Model().covered - plan.Model().mines == (b.covered - b.mines) - {(rx, ry)};
        left := left - 1;
      }
      return Pass;
    }

    /** The first-click relocation of uncover: clears c's window on a sparse plan, else c alone. */
    method SecureFirstClick(x: int, y: int)
      requires plan.Valid() && plan.InRange(x, y)
      requires plan.Model().covered == AllCells(plan.width, plan.height)
      requires StateOf(plan.Model()) == Playing
      modifies plan, plan.mines, plan.hidden
      ensures plan.Valid() && plan.mines == old(plan.mines) && plan.marked == old(plan.marked)
      ensures plan.hidden == old(plan.hidden) || fresh(plan.hidden)
      ensures plan.Model() == old(plan.Model()).(mines := plan.Model().mines)
      ensures Relocated(old(plan.Model()), (x, y), plan.Model().mines)
    {
      var n := plan.GetNumberOfMines();
      if n < plan.width * plan.height - 9 {
        ClearWindow(x, y);
      } else {
        SecureCell(x, y);
      }
    }

    /** The sparse first click: every mine of the window of (x, y) moves to a free cell outside it. */
    method ClearWindow(x: int, y: int)
      requires plan.Valid() && plan.InRange(x, y)
      requires plan.Model().covered == AllCells(plan.width, plan.height)
      requires Sparse(plan.Model())
      modifies plan, plan.mines, plan.hidden
      ensures plan.Valid() && plan.mines == old(plan.mines) && plan.marked == old(plan.marked)
      ensures plan.hidden == old(plan.hidden) || fresh(plan.hidden)
      ensures plan.Model() == old(plan.Model()).(mines := plan.Model().mines)
      ensures Relocated(old(plan.Model()), (x, y), plan.Model().mines)
    {
      ghost var b0 := plan.Model();
      ClearingStart(b0, (x, y));
      for i := -1 to 2
        modifies plan.mines, plan.hidden
        invariant plan.Valid()
        invariant Clearing(b0, (x, y), plan.Model(), x + i, y - 1)
      {
        ClearColumn(b0, x, y, i);
        ClearingNextColumn(b0, (x, y), plan.Model(), x + i, x + (i + 1));
      }
      ghost var b := plan.Model();
      plan.CoverAll();
      ClearingDone(b0, (x, y), b);
    }

    /** The inner loop of the window scan: clears column x + i of the window of (x, y). */
    method ClearColumn(ghost b0: Board, x: int, y: int, i: int)
      requires plan.Valid() && Sparse(b0) && -1 <= i <= 1
      requires Clearing(b0, (x, y), plan.Model(), x + i, y - 1)
      modifies plan.mines, plan.hidden
      ensures plan.Valid()
      ensures Clearing(b0, (x, y), plan.Model(), x + i, y + 2)
    {
      var py := y - 1;
      while py < y + 2
        invariant plan.Valid() && py <= y + 2
        invariant Clearing(b0, (x, y), plan.Model(), x + i, py)
      {
        ClearingVisit(b0, (x, y), plan.Model(), (x + i, py), py + 1);
        ghost var bp := ClearWindowCell(x + i, py);
        py := py + 1;
      }
    }

    /** The dense first click: only a mine on (x, y) itself moves, to a free covered cell. */
    method SecureCell(x: int, y: int)
      requires plan.Valid() && plan.InRange(x, y)
      requires StateOf(plan.Model()) == Playing && !Sparse(plan.Model())
      modifies plan.mines
      ensures plan.Valid()
      ensures plan.Model() == old(plan.Model()).(mines := plan.Model().mines)
      ensures Relocated(old(plan.Model()), (x, y), plan.Model().mines)
    {
      ghost var b0 := plan.Model();
      var isMine := plan.IsMineAt(x, y);
      if isMine.value {
        DenseRoom(b0);
        AreaBound(plan.width, plan.height);
        var placed := PlaceMines(1);
        ghost var bp := plan.Model();
        var cleared := plan.ClearMineAt(x, y);
        DenseRelocate(b0, (x, y), bp);
      } else {
        DenseKeep(b0, (x, y));
      }
    }

    /**
     * One visit of the window scan in the first-click relocation: the window cell (x, y), when
     * it lies on the plan, is uncovered, its mine first moved to a free covered cell.
     */
    method ClearWindowCell(x: int, y: int) returns (ghost bp: Board)
      requires plan.Valid()
      requires Room(plan.Model(), (x, y))
      modifies plan.mines, plan.hidden
      ensures plan.Valid()
      ensures Cleared(old(plan.Model()), (x, y), bp, plan.Model())
    {
      bp := plan.Model();
      if x < 0 || x >= plan.width || y < 0 || y >= plan.height {
        return;
      }
      var isMine := plan.IsMineAt(x, y);
      if isMine.value {
        bp := MoveMineAndUncover(x, y);
      } else {
        var uncovered := plan.Uncover(x, y);
      }
    }

    /** Places one mine on a free covered cell, clears the mine of (x, y) and uncovers (x, y); bp is the plan in between. */
    method MoveMineAndUncover(x: int, y: int) returns (ghost bp: Board)
      requires plan.Valid() && plan.InRange(x, y)
      requires |plan.Model().covered - plan.Model().mines| >= 1
      modifies plan.mines, plan.hidden
      ensures plan.Valid() && bp.Valid() && Placed(old(plan.Model()), bp, 1)
      ensures plan.Model() == WithUncovered(WithoutMine(bp, (x, y)), (x, y))
    {
      AreaBound(plan.width, plan.height);
      var placed := PlaceMines(1);
      bp := plan.Model();
      var cleared := plan.ClearMineAt(x, y);
      var uncovered := plan.Uncover(x, y);
    }

    /**
     * uncover: nothing unless the game is played and the cell unmarked, BadCoords off the
     * plan; then the first-click relocation, the cell uncovered and the zero flood from it.
     */
    method Uncover(x: int, y: int) returns (o: Outcome)
      requires Valid()
      modifies plan, plan.mines, plan.hidden
      ensures Valid()
      ensures UncoverEffect(old(plan.Model()), (x, y), o, plan.Model())
    {
      var s := GetState();
      if s != Playing {
        return Pass;
      }
      var marked := plan.IsMarkedAt(x, y);
      if marked.Err? {
        return Fail(marked.error);
      }
      if marked.value {
        return Pass;
      }
      Proceed(x, y);
      return Pass;
    }

    /** The part of uncover past its guards: first-click relocation, the cell uncovered, the flood from it. */
    method Proceed(x: int, y: int)
      requires Valid() && plan.InRange(x, y)
      requires StateOf(plan.Model()) == Playing && (x, y) !in plan.Model().marked
      modifies plan, plan.mines, plan.hidden
      ensures Valid()
      ensures Proceeded(old(plan.Model()), (x, y), plan.Model())
    {
      ghost var b := plan.Model();
      Rearrange(x, y);
      ghost var b1 := plan.Model();
      UncoverPlanned(b, (x, y), b1);
      var done := plan.Uncover(x, y);
      assert plan.Model() == WithUncovered(b1, (x, y));
      UncoverZero(x, y);
    }

    /** The first-click check of uncover: on a fully covered plan the mines move away from (x, y). */
    method Rearrange(x: int, y: int)
      requires Valid() && plan.InRange(x, y) && StateOf(plan.Model()) == Playing
      modifies plan, plan.mines, plan.hidden
      ensures Valid() && plan.mines == old(plan.mines) && plan.marked == old(plan.marked)
      ensures plan.hidden == old(plan.hidden) || fresh(plan.hidden)
      ensures Rearranged(old(plan.Model()), (x, y), plan.Model())
    {
      ghost var b := plan.Model();
      var covered := plan.GetNumberOfCovered();
      assert plan.Model() == b;
      AllCellsCard(plan.width, plan.height);
      if covered == plan.width * plan.height {
        SubsetEqualCard(b.covered, AllCells(plan.width, plan.height));
        SecureFirstClick(x, y);
      } else {
        assert b.covered != AllCells(plan.width, plan.height);
      }
    }

    /**
     * uncoverZero: from an uncovered cell of a played game that is unmarked and has no mine
     * around, uncovers each covered neighbour and floods on from those with no mine around.
     */
    method UncoverZero(x: int, y: int)
      requires plan.Valid() && plan.InRange(x, y) && (x, y) !in plan.Model().covered
      modifies plan.hidden
      decreases |plan.Model().covered|, 4
      ensures plan.Valid()
      ensures Flooded(old(plan.Model()), (x, y), plan.Model())
    {
      ghost var b0 := plan.Model();
      ghost var c := (x, y);
      var s := GetState();
      if s != Playing {
        StayPut(b0, c);
        return;
      }
      var marked := plan.IsMarkedAt(x, y);
      if marked.value {
        StayPut(b0, c);
        return;
      }
      var around := plan.GetNumberOfMinesAround(x, y);
      if around.value != 0 {
        StayPut(b0, c);
        return;
      }
      assert Expands(b0, c);
      ScanAround(x, y);
    }

    /** The outer loop of the scan in uncoverZero: visits the window of (x, y) column by column. */
    method ScanAround(x: int, y: int)
      requires plan.Valid() && StateOf(plan.Model()) == Playing && Expands(plan.Model(), (x, y))
      modifies plan.hidden
      decreases |plan.Model().covered|, 3
      ensures plan.Valid()
      ensures Flooded(old(plan.Model()), (x, y), plan.Model())
    {
      ghost var b0 := plan.Model();
      ghost var c := (x, y);
      ProgressStart(b0, c);
      for i := -1 to 2
        invariant plan.Valid()
        invariant Progress(b0, c, plan.Model(), x + i, y - 1)
      {
        ScanColumn(b0, x, y, i);
        ProgressNextColumn(b0, c, plan.Model(), x + i, x + (i + 1));
      }
      ProgressDone(b0, c, plan.Model());
    }

    /** The inner loop of the scan in uncoverZero: visits column x + i of the window of (x, y). */
    method ScanColumn(ghost b0: Board, x: int, y: int, i: int)
      requires plan.Valid() && StateOf(b0) == Playing && Expands(b0, (x, y)) && -1 <= i <= 1
      requires Progress(b0, (x, y), plan.Model(), x + i, y - 1)
      modifies plan.hidden
      decreases |b0.covered|, 2
      ensures plan.Valid()
      ensures Progress(b0, (x, y), plan.Model(), x + i, y + 2)
    {
      for j := -1 to 2
        invariant plan.Valid()
        invariant Progress(b0, (x, y), plan.Model(), x + i, y + j)
      {
        ghost var b := plan.Model();
        SubsetCard(b.covered, b0.covered);
        VisitNeighbour(x, y, i, j);
        VisitStep(b0, (x, y), b, (x + i, y + j), plan.Model(), y + (j + 1));
      }
    }

    /**
     * One visit of the scan in uncoverZero: the neighbour at offset (i, j) from (x, y), when it
     * is not (x, y) itself, lies on the plan and is covered, is uncovered and flooded from.
     */
    method VisitNeighbour(x: int, y: int, i: int, j: int)
      requires plan.Valid() && -1 <= i <= 1 && -1 <= j <= 1
      modifies plan.hidden
      decreases |plan.Model().covered|, 1
      ensures plan.Valid()
      ensures Visited(old(plan.Model()), (x, y), (x + i, y + j), plan.Model())
    {
      if !(i == 0 && j == 0) && plan.InRange(x + i, y + j) {
        var covered := plan.IsCoveredAt(x + i, y + j);
        if covered.value {
          UncoverAndFlood(x + i, y + j);
        }
      }
    }

    /** Uncovers the covered cell (x, y) and floods on from it when it has no mine around it. */
    method UncoverAndFlood(x: int, y: int)
      requires plan.Valid() && plan.InRange(x, y) && (x, y) in plan.Model().covered
      modifies plan.hidden
      decreases |plan.Model().covered|, 0
      ensures plan.Valid()
      ensures Flooded(WithUncovered(old(plan.Model()), (x, y)), (x, y), plan.Model())
    {
      ghost var b1 := WithUncovered(plan.Model(), (x, y));
      var done := plan.Uncover(x, y);
      var k := plan.GetNumberOfMinesAround(x, y);
      assert plan.Model() == b1;
      if k.value == 0 {
        UncoverZero(x, y);
      } else {
        StayPut(b1, (x, y));
      }
    }
  }
}
