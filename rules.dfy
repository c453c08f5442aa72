/**
 * The rules of the game on Board values: StateOf is the status, SwitchMarkedEffect the
 * effect of a mark toggle, Placed the effect of placing mines, Relocated the first-click
 * relocation, Flooded the effect of the zero flood and UncoverEffect the effect of a
 * player's uncover. The lemmas here carry the proofs the MinesGame methods rely on.
 */
module Rules {
  import opened Cells
  import opened Errors
  import opened Boards

  /** The three states of MinesGame.java: playing (1), exploded (2), done (3). */
  datatype Status = Playing | Exploded | Done

  /** getState on the plan as a value: a mine uncovered is a loss, covered == mine count a win. */
  function StateOf(b: Board): (s: Status)
    ensures s == Exploded <==> exists d :: d in b.mines && d !in b.covered
    ensures s == Done <==> b.covered == b.mines
  {
    if b.mines - b.covered != {} then
      Exploded
    else
      assert b.mines <= b.covered by {
        forall d | d in b.mines ensures d in b.covered {
          assert d !in b.mines - b.covered;
        }
      }
      if |b.covered| == |b.mines| then
        SubsetEqualCard(b.mines, b.covered);
        Done
      else
        Playing
  }

  /** The flood continues from e: e holds no mine, is not marked and has no mine around it. */
  ghost predicate Expands(b: Board, e: Cell) {
    e !in b.mines && e !in b.marked && NoMineAround(b, e)
  }

  /** No cell of the plan next to d is covered. */
  ghost predicate NoCoveredNeighbour(b: Board, d: Cell) {
    forall n {:trigger Adjacent(d, n)} :: Adjacent(d, n) && b.Contains(n) ==> n !in b.covered
  }

  /** d is covered in b and no longer in b'. */
  predicate Uncovered(b: Board, b': Board, d: Cell) {
    d in b.covered && d !in b'.covered
  }

  /** No cell uncovered on the way from b to b' holds a mine. */
  ghost predicate NoMineUncovered(b: Board, b': Board) {
    forall d {:trigger Uncovered(b, b', d)} :: Uncovered(b, b', d) ==> d !in b'.mines
  }

  /**
   * r ranks the cells uncovered on the way from b to b': each of them, the start c aside,
   * lies next to c or to an uncovered cell of lower rank, and the flood continues from that
   * cell. Following lower ranks from any uncovered cell therefore leads back to c.
   */
  ghost predicate Ranked(b: Board, b': Board, c: Cell, r: map<Cell, nat>) {
    forall d {:trigger Uncovered(b, b', d)} :: Uncovered(b, b', d) && d != c ==>
      (d in r && exists e :: (e == c || (Uncovered(b, b', e) && e in r && r[e] < r[d])) && Expands(b', e) && Adjacent(e, d))
  }

  /** Every cell uncovered on the way from b to b' is reached from c through cells the flood continues from. */
  ghost predicate FloodSound(b: Board, b': Board, c: Cell) {
    exists r :: Ranked(b, b', c, r)
  }

  /** Uncovering nothing is a sound flood. */
  lemma SoundWhenUnchanged(b: Board, c: Cell)
    ensures FloodSound(b, b, c)
  {
    assert Ranked(b, b, c, map[]);
  }

  /**
   * p is a path of the flood from c: it starts at c, each later cell is uncovered on the way
   * from b to b' and lies next to the previous cell, and the flood continues from that one.
   */
  ghost predicate FloodPath(b: Board, b': Board, c: Cell, p: seq<Cell>) {
    |p| >= 1 && p[0] == c &&
    forall i {:trigger p[i]} :: 0 < i < |p| ==> Uncovered(b, b', p[i]) && Adjacent(p[i - 1], p[i]) && Expands(b', p[i - 1])
  }

  /** The path of the flood that the ranks give to the uncovered cell d. */
  lemma {:induction false} RankedPath(b: Board, b': Board, c: Cell, r: map<Cell, nat>, d: Cell) returns (p: seq<Cell>)
    requires Ranked(b, b', c, r) && Uncovered(b, b', d) && d != c
    ensures FloodPath(b, b', c, p) && p[|p| - 1] == d
    decreases r[d]
  {
    var e := Justification(b, b', c, r, d);
    if e == c {
      p := [c, d];
    } else {
      var q := RankedPath(b, b', c, r, e);
      ExtendPath(b, b', c, q, d);
      p := q + [d];
    }
  }

  /** The cell that justifies the uncovered cell d in the ranking r. */
  lemma Justification(b: Board, b': Board, c: Cell, r: map<Cell, nat>, d: Cell) returns (e: Cell)
    requires Ranked(b, b', c, r) && Uncovered(b, b', d) && d != c
    ensures d in r && (e == c || (Uncovered(b, b', e) && e in r && r[e] < r[d])) && Expands(b', e) && Adjacent(e, d)
  {
    e :| (e == c || (Uncovered(b, b', e) && e in r && r[e] < r[d])) && Expands(b', e) && Adjacent(e, d);
  }

  /** A path of the flood extends by an uncovered cell next to its end, when the flood continues from that end. */
  lemma ExtendPath(b: Board, b': Board, c: Cell, p: seq<Cell>, d: Cell)
    requires FloodPath(b, b', c, p) && Uncovered(b, b', d)
    requires Adjacent(p[|p| - 1], d) && Expands(b', p[|p| - 1])
    ensures FloodPath(b, b', c, p + [d]) && (p + [d])[|p|] == d
  {
    var q := p + [d];
    forall i {:trigger q[i]} | 0 < i < |q|
      ensures Uncovered(b, b', q[i]) && Adjacent(q[i - 1], q[i]) && Expands(b', q[i - 1])
    {
      if i < |p| {
        assert q[i] == p[i] && q[i - 1] == p[i - 1];
      } else {
        assert q[i] == d && q[i - 1] == p[|p| - 1];
      }
    }
  }

  /** In a sound flood, every uncovered cell is reached from the start by a path of the flood. */
  lemma FloodReachesStart(b: Board, b': Board, c: Cell, d: Cell)
    requires FloodSound(b, b', c) && (d == c || Uncovered(b, b', d))
    ensures exists p :: FloodPath(b, b', c, p) && p[|p| - 1] == d
  {
    if d == c {
      assert FloodPath(b, b', c, [c]);
    } else {
      var r :| Ranked(b, b', c, r);
      var p := RankedPath(b, b', c, r, d);
    }
  }

  /** Every uncovered cell from which the flood continues has no covered neighbour left. */
  ghost predicate FloodComplete(b: Board, b': Board) {
    forall d :: Uncovered(b, b', d) && Expands(b', d) ==> NoCoveredNeighbour(b', d)
  }

  /**
   * The effect of uncoverZero(c) on b: nothing at all unless the game is played and the
   * flood continues from c; otherwise only cells without a mine get uncovered, each next to
   * c or to another uncovered cell the flood continues from, until every such cell, c
   * included, has no covered neighbour.
   */
  ghost predicate Flooded(b: Board, c: Cell, b': Board) {
    b' == b.(covered := b'.covered) && b'.covered <= b.covered &&
    NoMineUncovered(b, b') && FloodSound(b, b', c) &&
    (StateOf(b) != Playing || !Expands(b, c) ==> b' == b) &&
    (StateOf(b) != Exploded ==> FloodComplete(b, b') && (Expands(b', c) ==> NoCoveredNeighbour(b', c)))
  }

  /** The effect of placeMines(count): count new mines on covered mine-free cells, nothing else changes. */
  ghost predicate Placed(b: Board, b': Board, count: int) {
    b' == b.(mines := b'.mines) && b.mines <= b'.mines && b'.mines - b.mines <= b.covered &&
    |b'.mines| == |b.mines| + count
  }

  /** No cell of the 3 × 3 window centred on c is in m. */
  ghost predicate MineFreeWindow(m: set<Cell>, c: Cell) {
    forall d {:trigger Near(c, d)} :: Near(c, d) ==> d !in m
  }

  /** The plan is sparse: fewer than width·height − 9 mines, so a whole window can be cleared. */
  predicate Sparse(b: Board) {
    |b.mines| < b.width * b.height - 9
  }

  /** The first click at c needs no relocation: its window (sparse plan) or c itself (dense plan) is mine-free. */
  ghost predicate AlreadySafe(b: Board, c: Cell) {
    if Sparse(b) then MineFreeWindow(b.mines, c) else c !in b.mines
  }

  /** Every cell of m0 outside the 3 × 3 window centred on c is still in m. */
  ghost predicate KeptOutside(m0: set<Cell>, c: Cell, m: set<Cell>) {
    forall d :: d in m0 && !Near(c, d) ==> d in m
  }

  /**
   * The mines m after the first-click relocation at c: as many as before and on the plan,
   * none on c; on a sparse plan none in c's window and every mine outside it kept, on a
   * dense plan every mine but c's kept; and no change when none was needed.
   */
  ghost predicate Relocated(b: Board, c: Cell, m: set<Cell>) {
    m <= AllCells(b.width, b.height) && |m| == |b.mines| && c !in m &&
    (if Sparse(b) then MineFreeWindow(m, c) && KeptOutside(b.mines, c, m) else b.mines - {c} <= m) &&
    (AlreadySafe(b, c) ==> m == b.mines)
  }

  /**
   * A player's uncover of c that gets past the guards: mines relocated on the first click
   * (when every cell is covered), c uncovered, at most c exposed as a mine, and the flood
   * from c: nothing else uncovered unless it continues from c, every uncovered cell next
   * to one it continues from, and no covered cell left next to such a cell.
   */
  ghost predicate Proceeded(b: Board, c: Cell, b': Board) {
    b'.width == b.width && b'.height == b.height && b'.marked == b.marked &&
    (if b.covered == AllCells(b.width, b.height) then Relocated(b, c, b'.mines) else b'.mines == b.mines) &&
    c !in b'.covered && b'.covered <= b.covered &&
    b'.mines - b'.covered <= {c} &&
    FloodSound(b, b', c) && FloodComplete(b, b') &&
    (Expands(b', c) ==> NoCoveredNeighbour(b', c)) &&
    (!Expands(b', c) ==> b'.covered == b.covered - {c})
  }

  /** uncover(c) on b with outcome o and resulting plan b'. */
  ghost predicate UncoverEffect(b: Board, c: Cell, o: Outcome, b': Board) {
    if StateOf(b) != Playing then o == Pass && b' == b
    else if !b.Contains(c) then o == Fail(BadCoords) && b' == b
    else if c in b.marked then o == Pass && b' == b
    else o == Pass && Proceeded(b, c, b')
  }

  /** switchMarked(c) on b: the outcome and the plan afterwards. */
  function SwitchMarkedEffect(b: Board, c: Cell): (Outcome, Board) {
    if StateOf(b) != Playing then (Pass, b)
    else if !b.Contains(c) then (Fail(BadCoords), b)
    else if c !in b.covered then (Fail(WrongAction), b)
    else (Pass, WithMark(b, c, c !in b.marked))
  }

  /** Toggling a mark twice restores the plan, and both toggles report the same outcome. */
  lemma SwitchMarkedTwice(b: Board, c: Cell)
    ensures SwitchMarkedEffect(SwitchMarkedEffect(b, c).1, c) == (SwitchMarkedEffect(b, c).0, b)
  {
    var (o, b1) := SwitchMarkedEffect(b, c);
    if b1 != b {
      assert StateOf(b1) == StateOf(b);
      if c in b.marked {
        assert b.marked - {c} + {c} == b.marked;
      } else {
        assert b.marked + {c} - {c} == b.marked;
      }
    }
  }

  /** A mark toggle changes only the marks, so it never changes the status. */
  lemma SwitchMarkedKeepsState(b: Board, c: Cell)
    ensures SwitchMarkedEffect(b, c).1 == b.(marked := SwitchMarkedEffect(b, c).1.marked)
    ensures StateOf(SwitchMarkedEffect(b, c).1) == StateOf(b)
  {
  }

  /** A lost or won game ignores an uncover: no error and no change. */
  lemma EndedIgnoresUncover(b: Board, c: Cell, o: Outcome, b': Board)
    requires StateOf(b) != Playing && UncoverEffect(b, c, o, b')
    ensures b' == b && o == Pass && StateOf(b') == StateOf(b)
  {
  }

  /** A lost or won game ignores a mark toggle: no error and no change. */
  lemma EndedIgnoresMarks(b: Board, c: Cell)
    requires StateOf(b) != Playing
    ensures SwitchMarkedEffect(b, c) == (Pass, b)
  {
  }

  /** Uncovering an unmarked cell with a mine around it uncovers that cell alone. */
  lemma NumberedClickUncoversOnlyIt(b: Board, c: Cell, o: Outcome, b': Board)
    requires UncoverEffect(b, c, o, b') && StateOf(b) == Playing && b.Contains(c) && c !in b.marked
    requires NeighbourMines(b', c) != 0
    ensures b'.covered == b.covered - {c}
  {
  }

  /** A lost or won game, or a start cell the flood does not continue from, floods nothing. */
  lemma StayPut(b: Board, c: Cell)
    requires StateOf(b) != Playing || !Expands(b, c)
    ensures Flooded(b, c, b)
  {
    SoundWhenUnchanged(b, c);
    if StateOf(b) == Done && Expands(b, c) {
      forall n | Adjacent(c, n) && b.Contains(n) ensures n !in b.covered {
        assert n !in b.mines;
      }
    }
  }

  /** Every neighbour of c that a scan about to visit (px, py) has visited is uncovered in b. */
  ghost predicate ScanUncovered(b: Board, c: Cell, px: int, py: int) {
    forall d {:trigger Adjacent(c, d)} :: Adjacent(c, d) && b.Contains(d) && ScannedBefore(d, px, py) ==> d !in b.covered
  }

  /**
   * Progress of the scan around c in uncoverZero, when it is about to visit (px, py): the
   * cells uncovered so far form a sound and complete flood, and every neighbour of c
   * visited so far is uncovered.
   */
  ghost predicate Progress(b0: Board, c: Cell, b: Board, px: int, py: int) {
    b == b0.(covered := b.covered) && b.covered <= b0.covered &&
    NoMineUncovered(b0, b) && FloodSound(b0, b, c) && FloodComplete(b0, b) &&
    ScanUncovered(b, c, px, py)
  }

  lemma ProgressStart(b0: Board, c: Cell)
    ensures Progress(b0, c, b0, c.0 - 1, c.1 - 1)
  {
    SoundWhenUnchanged(b0, c);
  }

  /** Visiting a cell that is c itself, off the plan or already uncovered keeps the progress. */
  lemma SkipStep(b0: Board, c: Cell, b: Board, px: int, py: int, next: int)
    requires next == py + 1
    requires Progress(b0, c, b, px, py)
    requires !(Adjacent(c, (px, py)) && b.Contains((px, py)) && (px, py) in b.covered)
    ensures Progress(b0, c, b, px, next)
  {
    forall d | Adjacent(c, d) && b.Contains(d) && ScannedBefore(d, px, next)
      ensures d !in b.covered
    {
      if !ScannedBefore(d, px, py) {
        assert d == (px, py);
      }
    }
  }

  /** Uncovering a covered neighbour n of the expanding cell c and flooding from n keeps the progress. */
  lemma UncoverStep(b0: Board, c: Cell, b: Board, n: Cell, b2: Board, next: int)
    requires next == n.1 + 1
    requires StateOf(b0) == Playing && Expands(b0, c)
    requires Progress(b0, c, b, n.0, n.1)
    requires Adjacent(c, n) && b.Contains(n) && n in b.covered
    requires Flooded(WithUncovered(b, n), n, b2)
    ensures Progress(b0, c, b2, n.0, next)
  {
    var b1 := WithUncovered(b, n);
    assert n !in b0.mines;
    assert StateOf(b1) != Exploded by {
      forall d | d in b1.mines ensures d in b1.covered {
        assert d in b0.covered && !Uncovered(b0, b, d);
      }
    }
    forall d | Uncovered(b0, b2, d)
      ensures d !in b2.mines
    {
      if d in b1.covered {
        assert Uncovered(b1, b2, d);
      } else if d != n {
        assert Uncovered(b0, b, d);
      }
    }
    UncoverStepSound(b0, c, b, n, b2);
    forall d | Uncovered(b0, b2, d) && Expands(b2, d)
      ensures NoCoveredNeighbour(b2, d)
    {
      if d in b1.covered {
        assert Uncovered(b1, b2, d);
      } else if d != n {
        assert Uncovered(b0, b, d) && Expands(b, d);
        assert NoCoveredNeighbour(b, d);
      }
    }
    forall d | Adjacent(c, d) && b2.Contains(d) && ScannedBefore(d, n.0, next)
      ensures d !in b2.covered
    {
      if !ScannedBefore(d, n.0, n.1) {
        assert d == n;
      }
    }
  }

  /**
   * The ranks of the flood so far, 0 for n, and the ranks of the flood from n raised by one
   * together rank the flood after n is uncovered and flooded from.
   */
  lemma UncoverStepSound(b0: Board, c: Cell, b: Board, n: Cell, b2: Board)
    requires Expands(b0, c) && b == b0.(covered := b.covered) && b.covered <= b0.covered
    requires FloodSound(b0, b, c)
    requires Adjacent(c, n) && n in b.covered
    requires Flooded(WithUncovered(b, n), n, b2)
    ensures FloodSound(b0, b2, c)
  {
    var b1 := WithUncovered(b, n);
    var r :| Ranked(b0, b, c, r);
    var ri :| Ranked(b1, b2, n, ri);
    var r2 := map d | d in b0.covered - b2.covered ::
      if d == n then 0 else if Uncovered(b0, b, d) && d in r then r[d] else if d in ri then ri[d] + 1 else 0;
    forall d | Uncovered(b0, b2, d) && d != c
      ensures d in r2 && exists e :: (e == c || (Uncovered(b0, b2, e) && e in r2 && r2[e] < r2[d])) && Expands(b2, e) && Adjacent(e, d)
    {
      if d == n {
        assert Expands(b2, c) && Adjacent(c, d);
      } else if d in b1.covered {
        assert Uncovered(b1, b2, d) && !Uncovered(b0, b, d);
        var e :| (e == n || (Uncovered(b1, b2, e) && e in ri && ri[e] < ri[d])) && Expands(b2, e) && Adjacent(e, d);
        if e != n {
          assert !Uncovered(b0, b, e) && e != n;
        }
        assert Uncovered(b0, b2, e) && e in r2 && r2[e] < r2[d];
      } else {
        assert Uncovered(b0, b, d);
        var e :| (e == c || (Uncovered(b0, b, e) && e in r && r[e] < r[d])) && Expands(b, e) && Adjacent(e, d);
        if e != c {
          assert e != n;
          assert Uncovered(b0, b2, e) && e in r2 && r2[e] < r2[d];
        }
        assert Expands(b2, e);
      }
    }
    assert Ranked(b0, b2, c, r2);
  }

  /**
   * One visit of the scan around c at n, from b to b': a covered neighbour of c on the plan is
   * uncovered and flooded from; any other cell is skipped.
   */
  ghost predicate Visited(b: Board, c: Cell, n: Cell, b': Board) {
    if Adjacent(c, n) && b.Contains(n) && n in b.covered then Flooded(WithUncovered(b, n), n, b') else b' == b
  }

  /** A visit keeps the progress of the scan. */
  lemma VisitStep(b0: Board, c: Cell, b: Board, n: Cell, b2: Board, next: int)
    requires next == n.1 + 1
    requires StateOf(b0) == Playing && Expands(b0, c)
    requires Progress(b0, c, b, n.0, n.1)
    requires Visited(b, c, n, b2)
    ensures Progress(b0, c, b2, n.0, next)
  {
    if Adjacent(c, n) && b.Contains(n) && n in b.covered {
      UncoverStep(b0, c, b, n, b2, next);
    } else {
      SkipStep(b0, c, b, n.0, n.1, next);
    }
  }

  lemma ProgressNextColumn(b0: Board, c: Cell, b: Board, px: int, next: int)
    requires next == px + 1
    requires Progress(b0, c, b, px, c.1 + 2)
    ensures Progress(b0, c, b, next, c.1 - 1)
  {
  }

  /** Past the last neighbour the scan from an expanding cell is a flood. */
  lemma ProgressDone(b0: Board, c: Cell, b: Board)
    requires StateOf(b0) == Playing && Expands(b0, c)
    requires Progress(b0, c, b, c.0 + 2, c.1 - 1)
    ensures Flooded(b0, c, b)
  {
  }

  /**
   * Progress of the first-click window scan when it is about to visit (px, py): the visited
   * window cells are mine-free and the only uncovered ones, the mine count and the mines
   * outside the window are kept, and a mine-free window is left alone.
   */
  ghost predicate Clearing(b0: Board, c: Cell, b: Board, px: int, py: int) {
    b.Valid() && b == b0.(mines := b.mines, covered := b.covered) && |b.mines| == |b0.mines| &&
    WindowScanned(b, c, px, py) && ScannedMineFree(b.mines, c, px, py) && KeptOutside(b0.mines, c, b.mines) &&
    (MineFreeWindow(b0.mines, c) ==> b.mines == b0.mines)
  }

  /** Exactly the window cells of c that a scan about to visit (px, py) has visited are uncovered in b. */
  ghost predicate WindowScanned(b: Board, c: Cell, px: int, py: int) {
    forall d {:trigger b.Contains(d)} :: b.Contains(d) ==> (d in b.covered <==> !(Near(c, d) && ScannedBefore(d, px, py)))
  }

  /** No window cell of c that a scan about to visit (px, py) has visited is in m. */
  ghost predicate ScannedMineFree(m: set<Cell>, c: Cell, px: int, py: int) {
    forall d {:trigger Near(c, d)} :: Near(c, d) && ScannedBefore(d, px, py) ==> d !in m
  }

  lemma ClearingStart(b0: Board, c: Cell)
    requires b0.Valid() && b0.covered == AllCells(b0.width, b0.height)
    ensures Clearing(b0, c, b0, c.0 - 1, c.1 - 1)
  {
  }

  /** A mine at n on the plan b has a free covered cell to move to. */
  ghost predicate Room(b: Board, n: Cell) {
    b.Contains(n) && n in b.mines ==> |b.covered - b.mines| >= 1
  }

  /** On a sparse plan there is always a free covered cell to move a window mine to. */
  lemma ClearingRoom(b0: Board, c: Cell, b: Board, n: Cell)
    requires Sparse(b0)
    requires Clearing(b0, c, b, n.0, n.1) && Near(c, n)
    ensures Room(b, n)
  {
    if !b.Contains(n) {
      return;
    }
    var all := AllCells(b0.width, b0.height);
    var win := Window(b0.width, b0.height, c);
    var visited := Before(win, n.0, n.1);
    NearInWindow(b0.width, b0.height, c, n);
    assert n in win - visited;
    WindowCard(b0.width, b0.height, c);
    SubsetCard(visited, win - {n});
    AllCellsCard(b0.width, b0.height);
    assert all - (visited + b.mines) <= b.covered - b.mines by {
      forall d | d in all - (visited + b.mines) ensures d in b.covered {
        assert b.Contains(d);
        if Near(c, d) {
          NearInWindow(b0.width, b0.height, c, d);
        }
      }
    }
    DiffCardLower(all, visited + b.mines);
    SubsetCard(all - (visited + b.mines), b.covered - b.mines);
  }

  /** Visiting a window cell off the plan keeps the progress. */
  lemma ClearingSkip(b0: Board, c: Cell, b: Board, px: int, py: int, next: int)
    requires next == py + 1
    requires Clearing(b0, c, b, px, py) && !b.Contains((px, py))
    ensures Clearing(b0, c, b, px, next)
  {
    forall d | Near(c, d) && ScannedBefore(d, px, next)
      ensures d !in b.mines
    {
      if !ScannedBefore(d, px, py) {
        assert d == (px, py);
      }
    }
    forall d | b.Contains(d)
      ensures d in b.covered <==> !(Near(c, d) && ScannedBefore(d, px, next))
    {
      assert d != (px, py);
    }
  }

  /** Uncovering a mine-free window cell keeps the progress. */
  lemma ClearingKeep(b0: Board, c: Cell, b: Board, n: Cell, next: int)
    requires next == n.1 + 1
    requires Clearing(b0, c, b, n.0, n.1) && Near(c, n) && b.Contains(n) && n !in b.mines
    ensures Clearing(b0, c, WithUncovered(b, n), n.0, next)
  {
    var b2 := WithUncovered(b, n);
    forall d | Near(c, d) && ScannedBefore(d, n.0, next)
      ensures d !in b2.mines
    {
      if !ScannedBefore(d, n.0, n.1) {
        assert d == n;
      }
    }
    forall d | b2.Contains(d)
      ensures d in b2.covered <==> !(Near(c, d) && ScannedBefore(d, n.0, next))
    {
      if d != n {
        assert b.Contains(d);
        assert ScannedBefore(d, n.0, next) <==> ScannedBefore(d, n.0, n.1);
      }
    }
  }

  /** Moving the mine of window cell n to a covered cell and uncovering n keeps the progress. */
  lemma ClearingRelocate(b0: Board, c: Cell, b: Board, n: Cell, bp: Board, next: int)
    requires next == n.1 + 1
    requires Clearing(b0, c, b, n.0, n.1) && Near(c, n) && b.Contains(n) && n in b.mines
    requires Placed(b, bp, 1) && bp.Valid()
    ensures Clearing(b0, c, WithUncovered(WithoutMine(bp, n), n), n.0, next)
  {
    var b2 := WithUncovered(WithoutMine(bp, n), n);
    assert |b2.mines| == |bp.mines| - 1;
    forall d | Near(c, d) && ScannedBefore(d, n.0, next)
      ensures d !in b2.mines
    {
      if d != n {
        assert ScannedBefore(d, n.0, n.1);
        assert d !in b.mines;
        if b.Contains(d) {
          assert d !in b.covered;
        }
      }
    }
    forall d | b2.Contains(d)
      ensures d in b2.covered <==> !(Near(c, d) && ScannedBefore(d, n.0, next))
    {
      if d != n {
        assert b.Contains(d);
        assert ScannedBefore(d, n.0, next) <==> ScannedBefore(d, n.0, n.1);
      }
    }
    assert MineFreeWindow(b0.mines, c) ==> b.mines == b0.mines && n in b0.mines;
  }

  /**
   * One visit of the window scan at n, from b to b': a cell off the plan is skipped, a
   * mine-free one uncovered, and a mine moved first to a free covered cell (bp is the plan
   * after that placement).
   */
  ghost predicate Cleared(b: Board, n: Cell, bp: Board, b': Board) {
    if !b.Contains(n) then b' == b
    else if n in b.mines then bp.Valid() && Placed(b, bp, 1) && b' == WithUncovered(WithoutMine(bp, n), n)
    else b' == WithUncovered(b, n)
  }

  /** A visit keeps the progress of the window scan. */
  lemma ClearingStep(b0: Board, c: Cell, b: Board, n: Cell, bp: Board, b2: Board, next: int)
    requires next == n.1 + 1
    requires Clearing(b0, c, b, n.0, n.1) && Near(c, n)
    requires Cleared(b, n, bp, b2)
    ensures Clearing(b0, c, b2, n.0, next)
  {
    if !b.Contains(n) {
      ClearingSkip(b0, c, b, n.0, n.1, next);
    } else if n in b.mines {
      ClearingRelocate(b0, c, b, n, bp, next);
    } else {
      ClearingKeep(b0, c, b, n, next);
    }
  }

  /**
   * Before visiting n: the window mine at n has room to move to, and any visit of n keeps
   * the progress of the window scan.
   */
  lemma ClearingVisit(b0: Board, c: Cell, b: Board, n: Cell, next: int)
    requires next == n.1 + 1 && Sparse(b0)
    requires Clearing(b0, c, b, n.0, n.1) && Near(c, n)
    ensures Room(b, n)
    ensures forall bp, b2 {:trigger Cleared(b, n, bp, b2)} :: Cleared(b, n, bp, b2) ==> Clearing(b0, c, b2, n.0, next)
  {
    ClearingRoom(b0, c, b, n);
    forall bp, b2 | Cleared(b, n, bp, b2) ensures Clearing(b0, c, b2, n.0, next) {
      ClearingStep(b0, c, b, n, bp, b2, next);
    }
  }

  lemma ClearingNextColumn(b0: Board, c: Cell, b: Board, px: int, next: int)
    requires next == px + 1
    requires Clearing(b0, c, b, px, c.1 + 2)
    ensures Clearing(b0, c, b, next, c.1 - 1)
  {
    forall d | Near(c, d)
      ensures ScannedBefore(d, next, c.1 - 1) <==> ScannedBefore(d, px, c.1 + 2)
    {
    }
  }

  /** Past the last window cell, covering everything again completes the relocation. */
  lemma ClearingDone(b0: Board, c: Cell, b: Board)
    requires b0.Valid() && b0.covered == AllCells(b0.width, b0.height)
    requires Sparse(b0)
    requires Clearing(b0, c, b, c.0 + 2, c.1 - 1)
    ensures CoveredAll(b) == b0.(mines := b.mines) && Relocated(b0, c, b.mines)
  {
    forall d | Near(c, d) ensures d !in b.mines {
      assert ScannedBefore(d, c.0 + 2, c.1 - 1);
    }
  }

  /** On a first click that is neither won nor lost there is a mine-free cell. */
  lemma DenseRoom(b: Board)
    requires StateOf(b) == Playing
    ensures |b.covered - b.mines| >= 1
  {
    assert b.mines <= b.covered;
    assert b.covered - b.mines != {};
  }

  /** A dense first click on a mine-free cell leaves the mines alone. */
  lemma DenseKeep(b: Board, c: Cell)
    requires b.Valid() && !Sparse(b) && c !in b.mines
    ensures Relocated(b, c, b.mines)
  {
  }

  /** Relocating the mine of c on a dense plan. */
  lemma DenseRelocate(b: Board, c: Cell, bp: Board)
    requires b.Valid() && !Sparse(b) && c in b.mines
    requires Placed(b, bp, 1) && bp.Valid()
    ensures WithoutMine(bp, c) == b.(mines := WithoutMine(bp, c).mines)
    ensures Relocated(b, c, WithoutMine(bp, c).mines)
  {
    assert c in bp.mines;
  }

  /** The first-click check of uncover(c), from b to b1: a fully covered plan has its mines relocated. */
  ghost predicate Rearranged(b: Board, c: Cell, b1: Board) {
    if b.covered == AllCells(b.width, b.height) then b1 == b.(mines := b1.mines) && Relocated(b, c, b1.mines)
    else b1 == b
  }

  /** Ties the steps of a player's uncover together. */
  lemma UncoverAssembly(b: Board, c: Cell, b1: Board, b': Board)
    requires b.Valid() && StateOf(b) == Playing && b.Contains(c) && c !in b.marked
    requires Rearranged(b, c, b1)
    requires Flooded(WithUncovered(b1, c), c, b')
    ensures Proceeded(b, c, b')
  {
    var b2 := WithUncovered(b1, c);
    assert b1.mines <= b1.covered by {
      if b.covered == AllCells(b.width, b.height) {
        assert b1.mines <= AllCells(b.width, b.height);
      } else {
        assert StateOf(b1) == Playing;
      }
    }
    forall d | d in b'.mines && d !in b'.covered
      ensures d == c
    {
      if d in b2.covered {
        assert Uncovered(b2, b', d);
      }
    }
    var r :| Ranked(b2, b', c, r);
    forall d | Uncovered(b, b', d) && d != c
      ensures d in r && exists e :: (e == c || (Uncovered(b, b', e) && e in r && r[e] < r[d])) && Expands(b', e) && Adjacent(e, d)
    {
      assert Uncovered(b2, b', d);
      var e :| (e == c || (Uncovered(b2, b', e) && e in r && r[e] < r[d])) && Expands(b', e) && Adjacent(e, d);
      assert e == c || Uncovered(b, b', e);
    }
    assert Ranked(b, b', c, r);
    if StateOf(b2) == Exploded {
      assert c in b2.mines;
    } else {
      forall d | Uncovered(b, b', d) && Expands(b', d)
        ensures NoCoveredNeighbour(b', d)
      {
        if d != c {
          assert Uncovered(b2, b', d);
        }
      }
    }
  }

  /** After the first-click check, any zero flood from c completes a player's uncover. */
  lemma UncoverPlanned(b: Board, c: Cell, b1: Board)
    requires b.Valid() && StateOf(b) == Playing && b.Contains(c) && c !in b.marked
    requires Rearranged(b, c, b1)
    ensures forall b' {:trigger Flooded(WithUncovered(b1, c), c, b')} :: Flooded(WithUncovered(b1, c), c, b') ==> Proceeded(b, c, b')
  {
    forall b' | Flooded(WithUncovered(b1, c), c, b') ensures Proceeded(b, c, b') {
      UncoverAssembly(b, c, b1, b');
    }
  }

  /** The first click never loses the game. */
  lemma FirstClickSafe(b: Board, c: Cell, o: Outcome, b': Board)
    requires b.Valid() && UncoverEffect(b, c, o, b') && b.covered == AllCells(b.width, b.height)
    ensures StateOf(b') != Exploded
  {
    if StateOf(b) == Playing && b.Contains(c) && c !in b.marked {
      assert c !in b'.mines;
      forall d | d in b'.mines ensures d in b'.covered {
        assert d in b'.mines - b'.covered ==> d == c;
      }
    } else {
      assert forall d :: d in b'.mines ==> d in b'.covered;
    }
  }

  /** The first click on an unmarked cell of a sparse plan uncovers the whole 3 × 3 window around it. */
  lemma FirstClickOpensWindow(b: Board, c: Cell, o: Outcome, b': Board)
    requires UncoverEffect(b, c, o, b') && b.covered == AllCells(b.width, b.height)
    requires StateOf(b) == Playing && b.Contains(c) && c !in b.marked
    requires Sparse(b)
    ensures forall d :: Near(c, d) && b.Contains(d) ==> d !in b'.covered
  {
    assert Expands(b', c);
    forall d | Near(c, d) && b.Contains(d) ensures d !in b'.covered {
      if d != c {
        assert Adjacent(c, d);
      }
    }
  }

  /** After an uncover that proceeds, the game is lost exactly when the clicked cell is a mine. */
  lemma ExplodesOnlyAtClick(b: Board, c: Cell, o: Outcome, b': Board)
    requires UncoverEffect(b, c, o, b') && StateOf(b) == Playing && b.Contains(c) && c !in b.marked
    ensures StateOf(b') == Exploded <==> c in b'.mines
  {
  }
}
