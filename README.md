# Minesweeper engine

This project is a Dafny model of the engine of a Java Minesweeper game. The model has two layers.

- **The plan.** `MinesPlan` (`plan.dfy`, module `Plan`) is a class over three `width × height` boolean matrices (`mines`, `hidden`, `marked`), updated in place.
  - Every coordinate-taking operation fails with `BadCoords` off the plan, and then changes nothing.
  - The whole-board counters are nested accumulator loops, each proved equal to the size of a set.
- **The game.** `MinesGame` (`game.dfy`, module `Game`) is the rules engine over a plan. It covers:
  - validated construction and `setPlan`
  - the status scan
  - the mark toggle
  - random mine placement
  - `uncover`, with the first-click relocation and the recursive zero flood `uncoverZero`

Each method is proved against a specification on plain values:

- `MinesPlan.Model()` views the plan as a `Board` (`boards.dfy`): its dimensions plus the sets of mined, covered and marked cells.
- The module `Rules` (`rules.dfy`) states what each game operation does to a `Board`, and proves the game's promises about those effects:
  - the first click is safe
  - mines are relocated without changing their count
  - the flood uncovers no mine, reaches every cell it uncovers from the clicked cell, and leaves no covered cell next to a cell it continues from
  - a game that has ended stays ended
- `cells.dfy` holds the cell geometry: the plan's cells, the 3 × 3 window around a cell, the scan order, and cardinalities.
- `errors.dfy` holds the error datatype: `BadNumber`, `BadCoords`, `WrongAction`, `NullPlan`.

How the Java maps onto the model:

- **Exceptions become results.** A Java exception becomes `Err`/`Fail`.
  - The constructors that throw become a Dafny constructor that requires the Java checks to pass, plus a static factory that returns a `Result`: `MinesPlan.Create`, `MinesGame.Create` and `MinesGame.Adopt`.
- **The random draw in `placeMines` is a `:|` choice.** It chooses a covered, mine-free cell. The draws the Java loop rejects are folded away.
- **The loops at MinesGame.java:170-181 and 245-263 are split into helper methods.** Each helper does one loop level or one visit, and has its own contract over a scan-progress predicate.

## Model

| member | source | states |
|---|---|---|
| Plan.NewMatrix | src/MinesPlan.java:48-79 | a fresh `w × h` matrix whose true cells are all cells or none, as the refill loops leave it |
| Plan.CountNeighbourMines | src/MinesPlan.java:185-196 | the window scan counts exactly the mines among the on-plan Moore neighbours, the centre excluded |
| Plan.MinesPlan.constructor | src/MinesPlan.java:31-43 | past the dimension checks: a `w × h` plan with every cell covered, no mine, no mark |
| Plan.MinesPlan.Default | src/MinesPlan.java:16-22 | the default plan is a clear 2 × 2 plan |
| Plan.MinesPlan.Create | src/MinesPlan.java:31-43 | `BadNumber` exactly when `w < 2` or `h < 2`, otherwise a fresh clear plan |
| Plan.MinesPlan.ClearAllMines | src/MinesPlan.java:48-55 | no mine afterwards; covers and marks are unchanged |
| Plan.MinesPlan.ClearAllMarks | src/MinesPlan.java:60-67 | no mark afterwards; mines and covers are unchanged |
| Plan.MinesPlan.CoverAll | src/MinesPlan.java:72-79 | every cell covered afterwards; mines and marks are unchanged |
| Plan.MinesPlan.UncoverAll | src/MinesPlan.java:84-90 | no cell covered afterwards, cleared in place; mines and marks are unchanged |
| Plan.MinesPlan.IsMineAt | src/MinesPlan.java:100-108 | `BadCoords` exactly off the plan, otherwise whether the cell holds a mine |
| Plan.MinesPlan.IsCoveredAt | src/MinesPlan.java:118-126 | `BadCoords` exactly off the plan, otherwise whether the cell is covered |
| Plan.MinesPlan.IsMarkedAt | src/MinesPlan.java:136-144 | `BadCoords` exactly off the plan, otherwise whether the cell is marked |
| Plan.MinesPlan.GetNumberOfMines | src/MinesPlan.java:159-169 | the loop's count is the number of mined cells, within `[0, width·height]` |
| Plan.MinesPlan.GetNumberOfMinesAround | src/MinesPlan.java:178-197 | `BadCoords` exactly off the plan, otherwise the number of mined Moore neighbours on the plan, within `[0, 8]` |
| Plan.MinesPlan.GetNumberOfCovered | src/MinesPlan.java:204-214 | the loop's count is the number of covered cells, within `[0, width·height]` |
| Plan.MinesPlan.SetMineAt | src/MinesPlan.java:223-231 | `BadCoords` exactly off the plan and then no change; otherwise only that cell gains a mine |
| Plan.MinesPlan.ClearMineAt | src/MinesPlan.java:233-241 | `BadCoords` exactly off the plan and then no change; otherwise only that cell loses its mine |
| Plan.MinesPlan.Uncover | src/MinesPlan.java:250-258 | `BadCoords` exactly off the plan and then no change; otherwise only that cell is uncovered |
| Plan.MinesPlan.Mark | src/MinesPlan.java:268-276 | `BadCoords` exactly off the plan and then no change; otherwise only that cell's mark is set to `v` |
| Boards.NeighbourMines | src/MinesPlan.java:185-196 | the neighbour count is at most 8 on the plan, and zero exactly when no on-plan neighbour holds a mine |
| Boards.CountBounds | src/MinesPlan.java:159-214 | the mine, covered and marked counts of a valid plan lie within `[0, width·height]` |
| Boards.EmptyCounts | src/MinesPlan.java:31-43 | a fresh plan is valid, has `w·h` covered cells, and has no mine or mark |
| Boards.WithMineIdempotent | src/MinesPlan.java:223-231 | setting a mine twice is the same as setting it once |
| Boards.WithoutMineUndoesWithMine | src/MinesPlan.java:223-241 | setting and then clearing a mine on a mine-free cell restores the plan |
| Boards.MineCountChange | src/MinesPlan.java:223-241 | setting or clearing a mine changes the mine count by one exactly when the cell changes |
| Boards.UncoverCount | src/MinesPlan.java:250-258 | uncovering is idempotent, and lowers the covered count by one exactly when the cell was covered |
| Boards.CoverAllCounts | src/MinesPlan.java:72-90 | after covering all, the covered count is `width·height`; after uncovering all, it is 0 |
| Boards.PrimitivesKeepValid | src/MinesPlan.java:223-276 | every single-cell mutation applied on the plan keeps the plan valid |
| Rules.StateOf | src/MinesGame.java:97-115 | exploded exactly when a mined cell is uncovered; done exactly when the covered cells are the mined cells |
| Rules.SwitchMarkedTwice | src/MinesGame.java:128-146 | toggling the same cell twice restores the plan, and both toggles report the same outcome |
| Rules.SwitchMarkedKeepsState | src/MinesGame.java:141-145 | a toggle changes only the marks, so it never changes the status |
| Rules.EndedIgnoresUncover | src/MinesGame.java:159-162 | once exploded or done, uncover changes nothing and reports no error |
| Rules.EndedIgnoresMarks | src/MinesGame.java:128-131 | once exploded or done, a mark toggle changes nothing and reports no error |
| Rules.NumberedClickUncoversOnlyIt | src/MinesGame.java:241-244 | an uncover that proceeds on a cell with a mine around it uncovers that cell alone |
| Rules.SoundWhenUnchanged | src/MinesGame.java:241-244 | a flood that uncovers nothing is sound |
| Rules.StayPut | src/MinesGame.java:242-244 | when the game is not played, or the flood does not continue from the start cell, the flood leaves the plan as it is |
| Rules.ProgressStart | src/MinesGame.java:245-246 | before the neighbour scan, nothing is uncovered and no neighbour has been visited |
| Rules.SkipStep | src/MinesGame.java:248-256 | skipping the centre, an off-plan cell or an uncovered cell keeps the scan's progress |
| Rules.UncoverStep | src/MinesGame.java:258-261 | uncovering a covered neighbour of an expanding cell and flooding from it keeps the scan's progress: no mine uncovered, every uncovered cell ranked back to the start, no covered cell next to an expanding one, the neighbour now visited |
| Rules.UncoverStepSound | src/MinesGame.java:258-261 | the ranks of the flood so far, with the neighbour's own flood ranked above the neighbour, rank the whole flood |
| Rules.VisitStep | src/MinesGame.java:247-261 | any visit of the neighbour scan keeps its progress |
| Rules.ProgressNextColumn | src/MinesGame.java:245-246 | the end of one column of the scan is the start of the next |
| Rules.RankedPath | src/MinesGame.java:241-264 | following lower ranks from an uncovered cell gives a path of the flood from the start cell to it |
| Rules.FloodReachesStart | src/MinesGame.java:241-264 | every cell a sound flood uncovers is reached from the start cell by neighbouring uncovered cells, each step leaving a cell the flood continues from |
| Rules.ProgressDone | src/MinesGame.java:245-263 | once all eight neighbours are visited, the cells uncovered so far form a flood from the start cell |
| Rules.ClearingStart | src/MinesGame.java:170-171 | before the window scan, the plan is fully covered and nothing in the window is visited |
| Rules.ClearingRoom | src/MinesGame.java:175-176 | on a sparse plan, a window mine always has a covered, mine-free cell to move to |
| Rules.ClearingSkip | src/MinesGame.java:172-174 | skipping an off-plan window cell keeps the scan's progress |
| Rules.ClearingKeep | src/MinesGame.java:179 | uncovering a mine-free window cell keeps the progress: the visited window cells are the uncovered ones, and all are mine-free |
| Rules.ClearingRelocate | src/MinesGame.java:175-179 | moving a window mine to a covered, mine-free cell and uncovering it keeps the mine count, and leaves the visited window cells mine-free |
| Rules.ClearingStep | src/MinesGame.java:172-179 | any visit of the window scan keeps its progress |
| Rules.ClearingVisit | src/MinesGame.java:172-179 | before a visit: the window cell has room for its mine, and every outcome of the visit keeps the progress |
| Rules.ClearingNextColumn | src/MinesGame.java:170-171 | the end of one window column is the start of the next |
| Rules.ClearingDone | src/MinesGame.java:182 | after the scan and `coverAll`, the plan is fully covered again, with as many mines as before and none in the window |
| Rules.DenseRoom | src/MinesGame.java:184-185 | in a played game there is a covered, mine-free cell to move the clicked mine to |
| Rules.DenseKeep | src/MinesGame.java:183-188 | on a dense plan, a mine-free clicked cell keeps every mine in place |
| Rules.DenseRelocate | src/MinesGame.java:184-187 | on a dense plan, moving the clicked mine away keeps the mine count and clears the clicked cell |
| Rules.UncoverAssembly | src/MinesGame.java:167-192 | relocation, uncovering the cell, then a flood from it, together make a proceeded uncover |
| Rules.UncoverPlanned | src/MinesGame.java:167-192 | after the first-click check, every flood from the clicked cell completes a proceeded uncover |
| Rules.FirstClickSafe | src/MinesGame.java:167-192 | the first uncover never explodes the game |
| Rules.FirstClickOpensWindow | src/MinesGame.java:169-192 | on a sparse plan, the first uncover of an unmarked cell uncovers every on-plan cell of its 3 × 3 window |
| Rules.ExplodesOnlyAtClick | src/MinesGame.java:159-192 | after an uncover that proceeds, the game is lost exactly when the clicked cell holds a mine |
| Game.MinesGame.constructor | src/MinesGame.java:24-36 | past the checks: a fresh `w × h` plan with exactly `mines` mines, all cells covered, none marked, status playing |
| Game.MinesGame.Create | src/MinesGame.java:24-36 | `BadNumber` exactly unless `w ≥ 2`, `h ≥ 2` and `1 ≤ mines ≤ w·h − 1`; otherwise the constructed game, status playing |
| Game.MinesGame.FromPlan | src/MinesGame.java:46-60 | past the checks, the game adopts the given plan unchanged |
| Game.MinesGame.Adopt | src/MinesGame.java:46-60 | `NullPlan` for no plan; `BadNumber` exactly when the plan has no mine; otherwise a game over that plan. The dimension checks at lines 50-55 never fire, since every plan is at least 2 × 2 |
| Game.MinesGame.SetPlan | src/MinesGame.java:74-88 | the same checks as adopting a plan; on failure the current plan stays, on success the new plan is adopted. The dimension checks at lines 78-83 never fire, since every plan is at least 2 × 2 |
| Game.MinesGame.GetState | src/MinesGame.java:97-115 | the scan's result is the status of the plan, with exploded taking precedence over done |
| Game.MinesGame.SwitchMarked | src/MinesGame.java:128-146 | no change unless playing; `BadCoords` off the plan; `WrongAction` on an uncovered cell; otherwise only that cell's mark flips |
| Game.MinesGame.PlaceMines | src/MinesGame.java:273-290 | `BadNumber` unless `1 ≤ count ≤ w·h − 1`, and then no change; otherwise exactly `count` new mines, each on a cell that was covered and mine-free, and nothing else changes |
| Game.MinesGame.SecureFirstClick | src/MinesGame.java:169-188 | the mine count is kept and the clicked cell is mine-free; on a sparse plan its window is mine-free and every mine outside it stays; on a dense plan every mine but the clicked cell's stays; mines move only when needed |
| Game.MinesGame.ClearWindow | src/MinesGame.java:169-182 | on a sparse, fully covered plan, the window becomes mine-free, every mine outside it stays, the mine count is kept, and the plan ends fully covered |
| Game.MinesGame.ClearColumn | src/MinesGame.java:171-180 | one column of the window scan keeps the scan's progress |
| Game.MinesGame.ClearWindowCell | src/MinesGame.java:172-179 | one visit: an off-plan cell is skipped; otherwise the cell is uncovered, its mine first moved to a covered, mine-free cell |
| Game.MinesGame.MoveMineAndUncover | src/MinesGame.java:175-179 | places one mine on a covered, mine-free cell, then clears the mine of the cell and uncovers it |
| Game.MinesGame.SecureCell | src/MinesGame.java:183-188 | on a dense plan, only a mine on the clicked cell moves: every other mine stays and the count is kept, so it lands on a cell that had none |
| Game.MinesGame.Uncover | src/MinesGame.java:159-193 | no change unless playing or when the cell is marked; `BadCoords` off the plan; otherwise relocation on the first click, the cell uncovered, and the flood from it: nothing more when a mine is around the cell, no other mine uncovered, every uncovered cell ranked back to the click, no covered cell next to a cell the flood continues from |
| Game.MinesGame.Proceed | src/MinesGame.java:167-192 | past the guards: the first-click relocation, the cell uncovered, and the zero flood, with the guarantees stated for `Uncover` |
| Game.MinesGame.Rearrange | src/MinesGame.java:168-189 | the mines are relocated exactly when every cell is covered, keeping the mines that need not move; otherwise nothing changes |
| Game.MinesGame.UncoverZero | src/MinesGame.java:241-264 | the flood changes only covers, never uncovers a mine, ranks every uncovered cell back to the start cell through cells it continues from, and leaves no covered neighbour next to such a cell; it ends because each recursion follows the uncover of a covered cell |
| Game.MinesGame.ScanAround | src/MinesGame.java:245-263 | visiting the eight neighbours of an expanding cell makes a flood from it |
| Game.MinesGame.ScanColumn | src/MinesGame.java:246-262 | one column of the neighbour scan keeps the flood's progress |
| Game.MinesGame.VisitNeighbour | src/MinesGame.java:247-261 | one visit: a covered on-plan neighbour is uncovered and flooded from; anything else is skipped |
| Game.MinesGame.UncoverAndFlood | src/MinesGame.java:258-261 | uncovers a covered cell, then floods from it when no mine is around it |

## Left out

- **The user interface.** MinesWidget.java and Smiley.java (Swing painting, image loading, pixel scaling) are not part of this model. Nor are the trivial getters `getWidth`, `getHeight` and `getPlan`.
- **The exception classes.** They become cases of the `Error` datatype. BadCoordsException.java is not part of this model; its role is the `BadCoords` case.
- **The uniform distribution of `java.util.Random`.** `PlaceMines` models each draw as an arbitrary choice of a covered, mine-free cell.
- PlaceMines: when `count` is in range, it requires that enough covered, mine-free cells exist.
  - The Java loop draws forever when they do not exist.
  - The model has no such divergence.
- **Reference aliasing between a plan and its game is not modelled.** A plan passed to `MinesGame(plan)` or `setPlan` is treated as owned by the game. The plan's three matrices are assumed distinct from each other.
- **The commented-out breadth-first `uncoverZero` at MinesGame.java:207-240 is dead code.** It is not modelled.
- **`uncover` has a bounds check at MinesGame.java:164-166.** It can never fire, because `isMarkedAt` on line 161 already fails off the plan while the game is played. The model's `BadCoords` comes from `IsMarkedAt`, as in the code.
- **The first-click window branch follows the code's strict comparison (MinesGame.java:169).** The window is cleared only when there are at most `w·h − 10` mines.
- **`coverAll` at MinesGame.java:182 re-covers the window after relocation.** The click is then uncovered and flooded from. The window holds no mine by then, so the whole window ends up uncovered (`Rules.FirstClickOpensWindow`).
- **`placeMines` checks `count` only against `w·h − 1` (MinesGame.java:274).** Its javadoc (MinesGame.java:270-271) says it rejects a count greater than the number of covered fields. The model keeps the code's check.
- Game.MinesGame.UncoverZero: like the code, the flood uncovers marked neighbours and leaves their marks in place.
- Game.MinesGame.UncoverZero: it requires an on-plan, uncovered start cell.
  - Its only callers in the code guarantee this.
  - Off the plan, the code's `isMarkedAt` would fail before its own bounds check.
- Game.MinesGame.Create: Java's `int` is 32 bits, and `w * h` at MinesGame.java:31 wraps past 2^31 cells. For example, `MinesGame(46341, 46341, 1)` throws `BadNumber` in Java, while the model's unbounded `int` accepts it.
- Game.MinesGame.PlaceMines: the range check on `w * h` at MinesGame.java:274 wraps past 2^31 cells in Java; the model does not wrap.
- Game.MinesGame.Rearrange: the first-click test on `w * h` at MinesGame.java:168 wraps past 2^31 cells in Java; the model does not wrap.
- Game.MinesGame.SecureFirstClick: the sparse test on `w * h − 9` at MinesGame.java:169 wraps past 2^31 cells in Java; the model does not wrap.
- **The nested loops of `uncover` and `uncoverZero` are split into helper methods.** Their behaviour is unchanged, and each helper has its own contract.
