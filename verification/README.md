# auto-minesweeper in Dafny

A model of the logic of auto-minesweeper, a Minesweeper game with "directors" that play it
automatically, and proofs about that model. The model covers these parts.

- **The director's view of the board** (`director_base.dfy`, `grid.dfy`).
  - The eleven cell types 0..10 and their predicates.
  - The eight-cell neighbourhood.
  - A consistency predicate: a placement of mines agrees with everything a snapshot shows.
    Every soundness result below is stated against it.
- **The probability director** (`groups.dfy`, `subset_map.dfy`).
  - Groups of unrevealed cells with a mine count, and group difference.
  - The visible groups read off a snapshot.
  - The simplifier, the flattening to per-cell probabilities, and the move choice.
  - The subset/superset index the simplifier relies on.
- **The pattern director** (`deduction.dfy`).
  - The rules `obvious`, `immediate_grouping`, `indirect_grouping` and `first_click`.
  - The planner priority.
- **The playable board** (`game_cell.dfy`, `game_board.dfy`, `game_text.dfy`,
  `game_control.dfy`).
  - Left, middle and right clicks, and the empty-cell flood.
  - First-click mine relocation and the winning check.
  - The one-character-per-cell save format and its round trip.
  - The control a director drives the game through, and its action queue.
- **The older single-file game** (`legacy.dfy`): its recursive flood, its chord, its
  first-click fix-up and its sprite order.
- **The array-based board** (`numpy_board.dfy`): clicks, the text grid and mine filling.
- **Two utilities.**
  - The integer grid walk (`raytrace.dfy`).
  - The method-value filter (`method_filter.dfy`).

## How things are represented

- Boards are maps from `(x, y)` to an immutable cell record.
- Operations are pure functions, or methods with loop invariants where the source loops.
- Randomness is a parameter, for example a shuffled list of cells or a pick index.
- Python's unordered set iteration is also a parameter: an explicit visiting order.
- `scipy`'s flood fill on the array board is a parameter called `area`.
- Group probabilities are Dafny `real`s, so division is exact.

Soundness is always stated against a placement `mines`, through two predicates:

- `Consistent(snap, mines)` says that flags sit on mines and that every number counts the
  mines around it.
- `Holds(g, mines)` says that a group's count is the true number of mines among its cells.

Under these, the model proves the following.

- Every rule of the pattern director is sound: the cells it clicks are safe and the cells
  it flags are mines. This holds for the rules over neighbour lists that can be read more
  than once, as `get_neighbors`' docstring promises. As written, `get_neighbors` returns a
  one-shot iterator, and two of the rules read it twice; "## Findings" shows what follows.
- The probability director's certain moves are sound, as long as its catch-all group's count
  is right.
- `Groups.CatchAllCanBeWrong` exhibits a board on which that count is wrong. The source
  admits this in a comment, at minesweeper/director/attempt2.py:71-75.

## Model

| member | source | states |
|---|---|---|
| `Grid.Box` | minesweeper/director/base.py:116-125 | The eight offsets give exactly the eight positions at Chebyshev distance one. |
| `Grid.NeighborsIn` | minesweeper/game.py:191-215 | A cell's neighbours are the on-board positions at distance one: at most eight, never the cell itself. |
| `Grid.CoordsMembership` | minesweeper/game.py:711-720 | The grid of a `w` by `h` board holds exactly the positions with `0 <= x < w` and `0 <= y < h`. |
| `DirectorBase.Number` | minesweeper/director/base.py:80-82 | A cell has a number exactly when its type is 1..8, and the number is the type. |
| `DirectorBase.ExactlyOneCategory` | minesweeper/director/base.py:61-98 | For types 0..10, exactly one of empty, number, unrevealed and flagged holds. Revealed means not unrevealed, so flags count as revealed. |
| `DirectorBase.UnrevealedNeighbors` | minesweeper/director/base.py:112-126 | A position is in the set exactly when it is an on-board neighbour whose type is unrevealed. |
| `DirectorBase.FlaggedNeighbors` | minesweeper/director/base.py:112-126 | A position is in the set exactly when it is an on-board neighbour whose type is a flag. |
| `DirectorBase.FlagsLeftCountsHiddenMines` | minesweeper/director/attempt1.py:191-193 | Under a consistent placement, a number minus its flagged neighbours is the number of mines among its unrevealed neighbours. |
| `Groups.Probability` | minesweeper/director/attempt2.py:29-31 | For a non-empty group: probability 1 means every cell is a mine, 0 means none is, and it is negative only for a negative count. |
| `Groups.ProbabilityInRange` | minesweeper/director/attempt2.py:29-31 | A group that tells the truth has a probability between 0 and 1. |
| `Groups.Difference` | minesweeper/director/attempt2.py:33-35 | For a contained group: the difference and the subtracted group partition the original's cells, and their counts add up to the original's count. |
| `Groups.DifferenceSound` | minesweeper/director/attempt2.py:33-35 | If both groups are true to a placement, so is their difference. |
| `Groups.FindVisibleGroups` | minesweeper/director/attempt2.py:49-76 | These groups are produced: one per number with unrevealed neighbours, counting its flags left, and a catch-all over the untouched unrevealed cells exactly when there are some. Together they cover every unrevealed cell, and they mention only unrevealed cells. |
| `Groups.VisibleGroupsCover` | minesweeper/director/attempt2.py:54-76 | Every unrevealed cell lies in some number group or in the catch-all. |
| `Groups.VisibleGroupsDistinct` | minesweeper/director/attempt2.py:63-68 | No number group shares a cell with the catch-all group. |
| `Groups.VisibleGroupsSound` | minesweeper/director/attempt2.py:49-76 | Under a consistent placement whose catch-all count is right, every visible group is true to it. |
| `Groups.CatchAllCanBeWrong` | minesweeper/director/attempt2.py:70-76 | On the row `1 # #` with the mine on the middle cell, a catch-all group counting one mine on the far cell is produced, and that group is false. |
| `Groups.RewriteSound` | minesweeper/director/attempt2.py:85-92 | Replacing a group by its differences with the groups it contains keeps every group true to the placement. |
| `Groups.RewriteCells` | minesweeper/director/attempt2.py:85-92 | The replacement mentions no cell that was not mentioned before. When the group contains a relative, as it does whenever the loop replaces it, no cell is lost either. |
| `Groups.SmallestExists` | minesweeper/director/attempt2.py:85 | A non-empty set of groups has a group of least size, which the size-sorted pass can visit first. |
| `Groups.SimplifyGroups` | minesweeper/director/attempt2.py:78-94 | Once the loop settles, no group contains a relative. Every placement the input groups are true to, the output groups are true to. The output groups mention exactly the cells the input groups mention. |
| `Groups.MaxProbability` | minesweeper/director/attempt2.py:100 | The result is the probability of one of the containing groups and at least that of every other. |
| `Groups.FlattenGroups` | minesweeper/director/attempt2.py:96-100 | Every cell any group mentions gets exactly the largest probability among the groups that contain it. |
| `Groups.SmallestProbabilityExists` | minesweeper/director/attempt2.py:119-120 | A non-empty probability table has a cell of least probability. |
| `Groups.Decide` | minesweeper/director/attempt2.py:107-121 | An empty table is an error. Otherwise, all cells of probability 1 are flagged and all cells of probability 0 are revealed. Only when there are none is a single least-probable cell clicked. |
| `Groups.FullGroupAllMines` | minesweeper/director/attempt2.py:11-15 | A true group whose count equals its size holds only mines. |
| `Groups.CertainCellsSound` | minesweeper/director/attempt2.py:109-110 | With true groups and maximal probabilities, a cell at 1 is a mine and a cell at 0 is safe. |
| `Groups.Act` | minesweeper/director/attempt2.py:102-121 | Certain moves are right in every consistent placement whose catch-all count is right. A move is chosen only when some cell is unrevealed. When some cell is unrevealed, the only failure is a simplification that did not settle, so the "No unrevealed cells left!" assertion fails exactly on a board without one. |
| `SubsetMaps.Add` | minesweeper/datastructures.py:15-18 | After adding, the object has exactly the given coordinates, and it is listed under each of them. Listings under other coordinates are untouched. |
| `SubsetMaps.AddKeepsIndex` | minesweeper/datastructures.py:15-18 | Adding keeps every registered coordinate listed. It keeps the index exact unless an object is re-added with fewer coordinates. |
| `SubsetMaps.StaleListing` | minesweeper/datastructures.py:15-18 | Re-adding an object with fewer coordinates leaves it listed under a coordinate it no longer has. |
| `SubsetMaps.Shares` | minesweeper/datastructures.py:20-22 | An unregistered object has no answer. In an exact index, the answer is exactly the registered objects whose coordinates meet the object's. |
| `SubsetMaps.SharesExact` | minesweeper/datastructures.py:20-22 | The union of the reverse-index listings over an object's coordinates is the set of objects meeting it. |
| `SubsetMaps.Subsets` | minesweeper/datastructures.py:24-28 | In an exact index, the answer is exactly the other objects that share a coordinate with `o` and whose coordinates lie inside `o`'s. |
| `SubsetMaps.Supersets` | minesweeper/datastructures.py:30-34 | In an exact index, the answer is exactly the other objects that share a coordinate with `o` and whose coordinates include `o`'s. |
| `SubsetMaps.SubsetSupersetDuality` | minesweeper/datastructures.py:24-34 | `p` is a subset of `o` exactly when `o` is a superset of `p`. |
| `SubsetMaps.CoordSet` | minesweeper/datastructures.py:49-50 | The set is exactly the neighbours whose type passes the filter, so it has at most eight entries. |
| `SubsetMaps.NeighborMap` | minesweeper/datastructures.py:37-47 | The index registers exactly the given cells, each with its filtered neighbours, and is exact. |
| `SubsetMaps.RegisterAll` | minesweeper/datastructures.py:11-13 | Adding the objects one by one registers exactly them, each with its own set, and the index is exact. |
| `Deduction.FirstSome` | minesweeper/director/attempt1.py:187-210 | The planner loop returns the first answer in candidate order, and returns none exactly when no candidate gives one. |
| `Deduction.NumberGroupHolds` | minesweeper/director/attempt1.py:191-193 | Under a consistent placement, a number's unrevealed neighbours with its flags left form a true group. |
| `Deduction.ObviousAt` | minesweeper/director/attempt1.py:152-166 | Over the neighbour list the docstring promises, a number gives a plan exactly when flagged plus unrevealed neighbours make up its number, or its flags do, with some neighbour unrevealed. The first case flags every unrevealed neighbour; otherwise the number is middle-clicked. |
| `Deduction.GroupVerdicts` | minesweeper/director/attempt1.py:204-209 | A true group needing no mine is all safe, and one needing a mine per cell is all mines. |
| `Deduction.ObviousSound` | minesweeper/director/attempt1.py:134-166 | Under a consistent placement, `obvious` over the promised neighbour lists flags only mines and chords only onto safe cells. When it finds nothing, no numbered cell in `order` meets either rule. |
| `Deduction.RelativesFromIndex` | minesweeper/director/attempt1.py:184-189 | The subsets plus the supersets from the index over numbered cells, filtered to unrevealed neighbours, are exactly the relatives the rule examines. |
| `Deduction.UnrevealedIndex` | minesweeper/director/attempt1.py:184 | The index over the numbered cells registers each one with its unrevealed neighbours, and is exact. |
| `Deduction.ImmediatePairSound` | minesweeper/director/attempt1.py:195-209 | When one number's unrevealed cells lie strictly inside another's: equal needs make the extra cells safe, and a need gap equal to their count makes them mines. |
| `Deduction.ImmediateGroupingSound` | minesweeper/director/attempt1.py:172-210 | Under a consistent placement, whatever `immediate_grouping` plans over the promised neighbour lists is sound. |
| `Deduction.PassesAsWritten` | minesweeper/director/base.py:112-126 | The first pass over the iterator `get_neighbors` returns finds the real flagged neighbours, and a second pass finds nothing. |
| `Deduction.ObviousAtAsWritten` | minesweeper/director/attempt1.py:152-166 | As written, `unrevealed` reads the exhausted iterator, so `obvious` makes no plan at any cell. |
| `Deduction.ObviousAsWrittenNeverPlans` | minesweeper/director/attempt1.py:152-166 | As written, `obvious` never plans. On the board `1 #`, the rule over the real neighbours flags the hidden cell. |
| `Deduction.ImmediatePairAsWritten` | minesweeper/director/attempt1.py:188-209 | As written, any plan acts on all the relative's unrevealed cells, those shared with the cell included. Whenever the relative has one and both need the same number of flags, all of them are clicked. |
| `Deduction.ImmediateAsWrittenClicksMine` | minesweeper/director/attempt1.py:187-205 | On the row `1 # 1 #` with its mine under the first `#`, `immediate_grouping` as written clicks the mine. The rule over the real unrevealed cells clicks only the safe last cell. |
| `Deduction.StakedGroup` | minesweeper/director/attempt1.py:251-255 | Two true groups over disjoint parts of a third leave a true group over the staked cells, with the remaining need as its count. |
| `Deduction.DisjointJoin` | minesweeper/director/attempt1.py:239-251 | Two true groups over disjoint cells join into one true group. |
| `Deduction.StakedPlanSound` | minesweeper/director/attempt1.py:239-278 | Staked cells are clicked only when safe and flagged only when all are mines. |
| `Deduction.IndirectTripleSound` | minesweeper/director/attempt1.py:225-278 | For a cell, a superset neighbour and an insightful subset of it, the plan is sound. |
| `Deduction.IndirectGroupingSound` | minesweeper/director/attempt1.py:211-279 | Under a consistent placement, whatever `indirect_grouping` plans is sound. |
| `Deduction.FirstClick` | minesweeper/director/attempt1.py:280-294 | A plan is made exactly when nothing is revealed. It clicks one cell on the border of the board. |
| `Deduction.NextMoves` | minesweeper/director/attempt1.py:80-116 | If any confident planner found a plan, one of theirs is taken. A guess is used only when none did and low-confidence play is allowed, and then the first guess planner that finds a move is taken, in order. |
| `Deduction.SomeSeq` | minesweeper/director/attempt1.py:84-87 | The kept plans are found plans from the list, and there is one exactly when some planner found a plan. |
| `Deduction.GetNextMoves` | minesweeper/director/attempt1.py:67-116 | Over the neighbour lists `get_neighbors` promises (see "## Findings" for the code as written): once something is revealed and a deduction rule finds a plan, the turn takes a sound plan, whatever the low-confidence setting. When no rule finds one, only a guess can be taken, and only with low-confidence play on. With it off, any plan taken once something is revealed is sound. The chord `obvious` makes while planning is reported as `chord`, exactly when it plans one, and is onto safe cells. |
| `Deduction.ObviousChord` | minesweeper/director/attempt1.py:164-166 | A middle-click plan of `obvious` names exactly one number. |
| `GameCell.CellChar` | minesweeper/game.py:158-171 | A cell saves as one of `*FOf.#`, and as one of `*FO` exactly when it is a mine. |
| `GameCell.CellFromChar` | minesweeper/game.py:173-185 | Loading any save character gives a cell that saves as that character. Characters outside the format save as `#`. A cell is a mine exactly for `*`, `F` and `O`. |
| `GameCell.CellRoundTrip` | minesweeper/game.py:158-185 | Saving then loading restores every cell play produces, except that the losing mine comes back unrevealed. |
| `GameCell.SpriteOf` | minesweeper/game.py:226-246 | Mine sprites appear only for revealed mines. The wrong-flag and unrevealed-mine sprites appear only after the game ends. A number sprite shows the cell's non-zero number. |
| `GameCell.SpriteHidesMines` | minesweeper/game.py:237-246 | During play, a cell that is not revealed looks the same whether or not it is a mine: a flag or plain unrevealed. |
| `GameCell.DirectorType` | minesweeper/game.py:332-342 | Number, empty, flag and unrevealed sprites map to a type, and every other sprite maps to none. |
| `GameCell.DirectorSeesCell` | minesweeper/game.py:332-342 | During play, a director reads a hidden cell as unrevealed or flagged, and a revealed safe cell as its number. |
| `GameBoard.MineCount` | minesweeper/game.py:204-205 | A cell's mine count is between 0 and 8. |
| `GameBoard.DetermineNumbers` | minesweeper/game.py:734-736 | Every safe cell's number becomes its neighbouring-mine count, and a mine keeps the number it had. |
| `GameBoard.CascadeEmpty` | minesweeper/game.py:290-305 | The flood ends. It reveals no mine and no flagged cell and changes nothing else. Every empty cell it reaches has all its safe unflagged neighbours revealed, and every newly revealed cell lies next to such an empty cell. |
| `GameBoard.ShrinkHidden` | minesweeper/game.py:295-305 | Each batch of reveals reduces the hidden safe cells, so the worklist loop ends. |
| `GameBoard.Lose` | minesweeper/game.py:751-758 | After losing, the game is lost, out of play and over. |
| `GameBoard.CellClick` | minesweeper/game.py:255-264 | A revealed or flagged cell ignores the click. Otherwise the cell is revealed. A mine is marked as the losing mine and the game is lost. Only safe unflagged cells are revealed besides it, and mines and flags never move. |
| `GameBoard.OpenSafe` | minesweeper/game.py:263-264 | Revealing a safe cell, with the flood when it is empty, reveals it and reveals no mine or flagged cell. |
| `GameBoard.RightClick` | minesweeper/game.py:270-276 | The flag is toggled only on a cell that is not revealed, with mines-left moving by one the other way, so mines-left plus flags is unchanged. |
| `GameBoard.RightClickKeepsMines` | minesweeper/game.py:270-276 | A flag toggle moves no mine and keeps every cached number right. |
| `GameBoard.RightClickInvolution` | minesweeper/game.py:270-276 | Right-clicking the same cell twice restores the game. |
| `GameBoard.FlagToggleCount` | minesweeper/game.py:772-776 | Toggling a flag changes the number of flags by exactly one. |
| `GameBoard.MiddleClick` | minesweeper/game.py:266-288 | Only a cell with a number (any cell whose `number` is set) and as many flagged neighbours chords; anything else is ignored. A chord reveals every unflagged hidden neighbour. It loses exactly when one of those is a mine, and it moves no mine and no flag. Every cell it reveals was unflagged, and a mine among them is one of the chord's targets. Only the cells, the loss and the play flags change: size, numbers, mines-left and the win stay as they were. |
| `GameBoard.ClearCells` | minesweeper/game.py:997-1014 | Only mine bits change and the number of mines is kept. No target gains a mine, no mine off the targets moves, and when the board has room outside the targets, none keeps one. |
| `GameBoard.MoveMine` | minesweeper/game.py:1012-1013 | Moving a mine to a free cell keeps the number of mines. |
| `GameBoard.Reconfigure` | minesweeper/game.py:983-995 | Only mines move, and their number is kept. No cleared cell gains a mine and no mine outside them moves. The clicked cell, and its neighbours when that option is on, end up without mines when there is room. The numbers are recounted. |
| `GameBoard.LeftClick` | minesweeper/game.py:855-859 | Before anything is revealed, the board is fixed up first, so a first click with room to spare never loses. An unflagged cell ends up revealed. Once something is revealed, no mine or flag moves, a revealed or flagged cell ignores the click, and the game is lost exactly when the click hits a hidden unflagged mine. Mines-left, flags and the mine count are kept. |
| `GameBoard.HandleClick` | minesweeper/game.py:855-863 | Buttons other than 1, 2 and 3 change nothing. Button 1 does what the left click promises, 2 what the chord promises, and 3 toggles the flag. Every click keeps the board's cells, the mine count, mines-left plus flags, and the accuracy of the numbers. |
| `GameBoard.AccurateAfterClick` | minesweeper/game.py:217-219 | A change that moves no mine keeps every cached number right. |
| `GameBoard.DidWinIffNoHiddenSafe` | minesweeper/game.py:1016-1017 | The board is won exactly when no safe cell is still hidden. |
| `GameBoard.CheckWinningState` | minesweeper/game.py:1019-1022 | The game becomes won exactly when it is in play and won on the board. The board and the lost flag do not change. |
| `GameText.Split` | minesweeper/game.py:663 | Splitting at newlines gives at least one piece, and no piece contains a newline. |
| `GameText.SplitJoin` | minesweeper/game.py:604-612 | Splitting the newline-joined rows gives the rows back. |
| `GameText.RStrip` | minesweeper/game.py:664 | The result is a prefix, it does not end in whitespace, and everything cut off is whitespace. |
| `GameText.Rows` | minesweeper/game.py:662-670 | The rows are the stripped lines before the first blank one, in order. |
| `GameText.RowText` | minesweeper/game.py:604-611 | Row `y` of the save has one character per cell, the save character of cell `(x, y)`. |
| `GameText.Lines` | minesweeper/game.py:604-612 | The save has one line per row, top to bottom. |
| `GameText.LoadCell` | minesweeper/game.py:684-691 | A character loads as its cell. With `unrevealed` set, only the mine bit survives. |
| `GameText.LoadBoard` | minesweeper/game.py:682-686 | The loaded board is exactly the `w` by `h` grid, each cell loaded from its character. |
| `GameText.LoadedGame` | minesweeper/game.py:672-704 | Width and height come from the rows. Mines-left counts the mines neither revealed nor flagged. A losing mine makes the game lost and over, and every number is recounted. |
| `GameText.Deserialize` | minesweeper/game.py:657-704 | No rows and rows of unequal width are errors. Otherwise the result is the loaded game of the rows. |
| `GameText.SavedRowsSurvive` | minesweeper/game.py:662-670 | Reading a save back stops after exactly the saved rows and keeps them unchanged. |
| `GameText.RoundTrip` | minesweeper/game.py:584-704 | Loading a save gives back the board's size, each cell as its save character loads, and right numbers. |
| `GameText.RoundTripExact` | minesweeper/game.py:584-704 | A board of cells that play produces, with no losing mine, comes back unchanged. |
| `GameControl.CellTypes` | minesweeper/game.py:332-350 | Every cell gets a type except a revealed mine and, after the game ends, a wrongly flagged cell or an unflagged hidden mine. |
| `GameControl.ToSnapshot` | minesweeper/game.py:344-350 | The snapshot holds exactly the cells that show a type. |
| `GameControl.SnapshotConsistent` | minesweeper/game.py:332-350 | During play every cell shows a type. The true mines agree with the snapshot exactly when every flag sits on a mine. |
| `GameControl.Button` | minesweeper/game.py:352-366 | Clicks send buttons 1, 3 and 2, and a mark sends 1000 plus its number. |
| `GameControl.Control` | minesweeper/game.py:320-366 | A position with no cell is an error naming it. Otherwise the game handles the button, keeping the cells, the mine count and mines-left plus flags. A click does what `GameBoard.HandleClick` promises for its button. |
| `GameControl.Enqueue` | minesweeper/game.py:401-415 | Queuing appends the action after all queued ones. |
| `GameControl.GetActions` | minesweeper/game.py:435-437 | The listing is the button and position of every queued action, in order. |
| `GameControl.ActionsAfterEnqueue` | minesweeper/game.py:401-437 | Queuing an action lists it after all actions already listed. |
| `GameControl.FirstFailure` | minesweeper/game.py:423-430 | There is no failure exactly when every entry can run; otherwise the failure is the first entry that cannot. |
| `GameControl.RightClickStepChanges` | minesweeper/game.py:270-276 | A queued right click on a hidden cell that runs always changes the game: the cell's flag flips. |
| `GameControl.ExecQueue` | minesweeper/game.py:423-430 | Actions run first to last, and a mark does nothing when run. The returned trace has one game per action run, plus the starting game. Each action takes one game of the trace to the next, as a right click, left click or chord on that game does. The result is the trace's last game. On the first failure the failed action is dropped and the rest stay queued in order. Without one, the queue empties. The bookkeeping is kept throughout. |
| `Legacy.NeighborList` | minesweeper.py:112-122 | The list holds exactly the on-board neighbours. |
| `Legacy.Friendlies` | minesweeper.py:212-214 | The list holds exactly the neighbours that are safe and neither revealed nor flagged. |
| `Legacy.Flood` | minesweeper.py:210-218 | The recursion ends. It only reveals safe unflagged cells, opens the area around its cell, and opens the area around every empty cell it reveals. |
| `Legacy.FloodEach` | minesweeper.py:215-218 | The loop reveals every listed cell, and every empty cell it reveals has its area opened. |
| `Legacy.Click` | minesweeper.py:175-184 | A revealed or flagged cell ignores the click. A hidden mine is revealed as the losing mine and loses. A safe cell is revealed, flooding when it is empty. |
| `Legacy.ClickKeepsLayout` | minesweeper.py:175-184 | A click moves no mine or flag, loses exactly on a hidden mine, and reveals no other mine. |
| `Legacy.RightClick` | minesweeper.py:190-196 | The flag is toggled only on a cell that is not revealed, keeping mines-left plus flags. |
| `Legacy.MiddleClick` | minesweeper.py:186-208 | Only a cell with a number (any cell whose `number` is set) and as many flagged neighbours chords. A chord loses exactly when a hidden unflagged neighbour is a mine, and it moves nothing. |
| `Legacy.ChordList` | minesweeper.py:205-206 | The chord list holds exactly the neighbours that are neither flagged nor revealed. |
| `Legacy.ChordEach` | minesweeper.py:207-208 | Clicking the list moves nothing and loses exactly when a listed cell is a mine. |
| `Legacy.LastFree` | minesweeper.py:375-384 | The loop stops at the last pool cell that is neither the clicked cell nor a mine, or finds none. |
| `Legacy.Reconfigure` | minesweeper.py:371-385 | Only mines move, their number is kept, and the clicked mine is gone whenever there is a free cell. The numbers are recounted. |
| `Legacy.MovedMine` | minesweeper.py:382-383 | Moving the mine changes exactly two cells and keeps the number of mines. |
| `Legacy.LeftClick` | minesweeper.py:312-316 | A first click on a mine moves the mine first, so with a free cell it never loses. The number of mines is kept. |
| `Legacy.SpritesDiffer` | minesweeper.py:146-166 | The legacy sprites differ from the playable board's exactly on a flagged mine after game over, shown there as an unrevealed mine. |
| `NumpyBoard.Empty` | minesweeper/minesweeper_numpy.py:33-39 | An empty board has nothing mined, revealed or flagged, and every number zero. |
| `NumpyBoard.AxisIndex` | minesweeper/minesweeper_numpy.py:92 | An index is in range exactly for `-n <= i < n`, and a negative one counts back from the end. |
| `NumpyBoard.Locate` | minesweeper/minesweeper_numpy.py:92 | Indexing outside the shape is an error naming the position. Otherwise it addresses a cell of the grid. |
| `NumpyBoard.ClickAsWritten` | minesweeper/minesweeper_numpy.py:91-133 | See Findings. A flagged or revealed cell ignores the click. A mine explodes and records the index pair as given, negative or not. A non-empty safe cell is revealed. An empty cell replaces the whole reveal grid by the flood. |
| `NumpyBoard.ClickForgetsReveals` | minesweeper/minesweeper_numpy.py:130-133 | Clicking an empty cell as written hides every revealed cell the flood does not reach. |
| `NumpyBoard.ClickForgetsExample` | minesweeper/minesweeper_numpy.py:130-133 | On a five-by-one row with a mine in the middle, opening the right end hides the already opened left end, whichever of the right two cells the flood marks. |
| `NumpyBoard.Click` | minesweeper/minesweeper_numpy.py:91-101 | A flagged or revealed cell ignores the click. Otherwise the cell is revealed. A mine records the index pair as given, negative or not, as the exploded mine. Nothing but reveals and explosion changes. |
| `NumpyBoard.ClickKeepsRawIndex` | minesweeper/minesweeper_numpy.py:92-98 | On a five-by-one row with a mine at the right end, clicking `(-1, 0)` records `(-1, 0)`, which addresses the mine. |
| `NumpyBoard.ClickKeepsReveals` | minesweeper/minesweeper_numpy.py:112-133 | The corrected click never hides a cell and reveals only the cell and its flood. |
| `NumpyBoard.MiddleClickNoOp` | minesweeper/minesweeper_numpy.py:103-107 | A middle click never changes the board: its guard sends on only revealed cells, which the click ignores. |
| `NumpyBoard.RightClick` | minesweeper/minesweeper_numpy.py:109-110 | The flag of the addressed cell flips, revealed or not, and nothing else changes. |
| `NumpyBoard.RightClickTwice` | minesweeper/minesweeper_numpy.py:109-110 | Two right clicks on one cell restore the board. |
| `NumpyBoard.LostStaysLost` | minesweeper/minesweeper_numpy.py:88-110 | Once a mine has exploded, no click, chord or flag makes the board not lost. |
| `NumpyBoard.LeadingDigit` | minesweeper/minesweeper_numpy.py:75 | A number stored in a one-character cell is a digit, and below 10 it is the number's digit. |
| `NumpyBoard.CellText` | minesweeper/minesweeper_numpy.py:56-75 | A cell shows `#` exactly when hidden, and never `*`. Among revealed cells, `F` marks a flag, `O` an unflagged mine, a space zero, and otherwise the digit. |
| `NumpyBoard.Serialize` | minesweeper/minesweeper_numpy.py:55-77 | After the transpose, the text has one row per y and one character per x, each the cell's character. |
| `NumpyBoard.ExplodedShowsAsMine` | minesweeper/minesweeper_numpy.py:61-68 | The cell the exploded index addresses shows `F` or `O`, never `*`. |
| `NumpyBoard.SliceStop` | minesweeper/minesweeper_numpy.py:44 | The slice `[:n]` stops at `n` capped by the length, and for negative `n` counts back from the end. |
| `NumpyBoard.MinesAround` | minesweeper/minesweeper_numpy.py:48-53 | The convolution value is the number of mines among the eight neighbours. |
| `NumpyBoard.FillMines` | minesweeper/minesweeper_numpy.py:41-53 | Exactly as many mines as the slice takes are placed, all on the grid. Every number counts the mines around its cell, and nothing else changes. |
| `RayTrace.Walk` | minesweeper/raytrace.py:6-21 | The walk has `1 + dx + dy` positions. It starts at the start, takes one-axis unit steps in the given directions, ends `dx` and `dy` away, and stays between start and end. |
| `RayTrace.StepStaysInside` | minesweeper/raytrace.py:16-21 | The error term never steps along an axis that is already done. |
| `RayTrace.IntTraceAsWritten` | minesweeper/raytrace.py:1-21 | The trace has `1 + abs(x1-x0) + abs(y1-y0)` positions, starts at `(x0, y0)`, and takes unit steps. It ends at `(x1, y1)` exactly when `x1 >= x0` and `y1 >= y0`. |
| `RayTrace.TraceWalksAway` | minesweeper/raytrace.py:11 | Tracing from (1, 0) to (0, 0) ends at (2, 0). |
| `RayTrace.IntTrace` | minesweeper/raytrace.py:1-21 | The corrected trace has the same length and ends at `(x1, y1)`. Every unit step brings it one closer to the end. |
| `MethodFilter.Check` | minesweeper/util.py:26-31 | An object is valid exactly when every named method returns its expected value. A missing method raises only when every filter before it matched. |
| `MethodFilter.Keep` | minesweeper/util.py:32 | The kept elements are a subsequence of the input in order, and are exactly the valid ones. |
| `MethodFilter.KeepCounts` | minesweeper/util.py:32 | Every occurrence of a valid element is kept, and no occurrence of an invalid one. |
| `MethodFilter.Apply` | minesweeper/util.py:1-32 | The filter fails exactly when some element lacks a method it is asked for, naming the first such. Otherwise it returns the valid elements in order, each as many times as it occurs in the input. |
| `MethodFilter.NoFiltersKeepAll` | minesweeper/util.py:26-32 | With no filters every element is kept. |
| `MethodFilter.ExampleIsFoo` | minesweeper/util.py:15-17 | `is_foo=True` on `[Foo, Foo, Bar]` gives `[Foo, Foo]`. |
| `MethodFilter.ExampleNotBar` | minesweeper/util.py:18-19 | `is_bar=False` gives `[Foo, Foo]`. |
| `MethodFilter.ExampleIsBar` | minesweeper/util.py:20-21 | `is_bar=True` gives `[Bar]`. |
| `MethodFilter.ExampleBoth` | minesweeper/util.py:22-23 | The contradictory filters `is_foo=True, is_bar=True` give `[]`. |
| `MethodFilter.MissingMethodRaises` | minesweeper/util.py:26-31 | An unknown method raises, but only when no earlier filter has already rejected the object. |

## Left out

- Rendering and input are not modelled: pygame and arcade drawing, sprites, fonts, the event loop, the score display and the mouse mapping. Each is user interface.
- File I/O is not modelled: save and load to disk, file names, screenshots. Serialisation is modelled as a string function.
- Randomness is a parameter. The shuffled cell list of `_clear_cells` and the legacy `reconfigure_board` is `pool`. `fill_mines`' shuffle is `shuffled`. The choices in `first_click` and `get_next_moves` are a nondeterministic pick or `pick`.
- Python set iteration order is a parameter: the `order` the planners visit cells in. The closest-to-last-move ordering (`sort_by_last_move`, `dist_to_last_move`) is float geometry and is not modelled. Its effect is in `order` and `pick`.
- `expand_cardinally` and `expand_randomly` are not modelled: they are float-scored and random fallbacks. Their plans are the `guesses` parameter of `Deduction.NextMoves`.
- scipy's `convolve` and `binary_dilation` are library calls. The first is specified as the neighbour count. The flood of the second is the `area` parameter.
- The SQL director (minesweeper/director/postgres.py) is not modelled: it runs inside a database.
- Group probabilities use exact reals, not floating point.
- `Groups.SimplifyGroups`: the source loops until nothing changes and does not argue that it ends. The model takes a bound on passes, and its "no contained relative" guarantee holds only when it reports it settled.
- `Groups.Act`: its soundness assumes the catch-all count is right. The source admits it may not be, and `Groups.CatchAllCanBeWrong` shows a board where it is not.
- `PropertyGraph`, `NeighborGraph`, `num_flags_left`, `get_neighbors(is_unrevealed=...)` and `get_history` are not part of this model: their code is not in the repository files modelled here. They are modelled from their use: flags left is the number minus the flagged neighbours, and a group's relatives are those the subset index returns.
- The subset index's `_shares` calls `reduce` without importing it, which fails under Python 3. The model gives the evident union.
- `GameControl.Enqueue`: it models the append only, for all four queuing methods. In the files modelled here (game.py:401-415, base.py:7-57), each method first calls its `BaseControl` counterpart, which gets in the way. `QueuedControl.click`, `right_click` and `middle_click` reach `BaseControl` methods that raise `NotImplementedError` (base.py:18, :28, :39). `QueuedControl.mark` calls `super().mark(...)`, which `BaseControl` does not define, so it raises `AttributeError`. In each case the error comes before anything is queued. That base class evidently predates the queue, and none of these raises is modelled. `GameControl.ActionsAfterEnqueue` inherits the same reading, including for a queued `mark` entry.
- `GameControl.ToSnapshot`: cells whose sprite has no type (a revealed mine, a wrong flag after the game) are left out of the snapshot, rather than given the type `None`.
- `GameControl.ExecQueue`: the only failure modelled is the missing cell (`IndexError`). Games are values here, so the late binding of the queued closures cannot matter. A left click or chord in the trace is pinned down only as far as `GameBoard.LeftClick` and `GameBoard.MiddleClick` promise, not cell by cell, because the flood and the chord are methods with no functional twin.
- `GameText.RStrip`: it strips only ASCII whitespace, not every character Python's `rstrip` treats as whitespace.
- `GameText.Deserialize`: the `assert` on row widths is modelled as an error result, and `w = len(lines[0])` on no rows as another.
- `NumpyBoard.FillMines`: it is modelled on an empty board, the only board `fill_mines` is called on. The view and reshape are modelled as the shuffled list of cells.
- `NumpyBoard.Serialize`: `__str__` and `np.savetxt` are not modelled. A number of ten or more would keep only its leading digit in the one-character array.
- `Deduction.ObviousSound`: it is about `obvious` over the neighbour lists `get_neighbors` promises. As written, `obvious` never plans (`Deduction.ObviousAsWrittenNeverPlans`, see "## Findings").
- `Deduction.ImmediateGroupingSound`: it is about `immediate_grouping` over the neighbour lists `get_neighbors` promises. As written, the rule can click a mine (`Deduction.ImmediateAsWrittenClicksMine`, see "## Findings").
- `Deduction.GetNextMoves`: it composes the rules over the neighbour lists `get_neighbors` promises, so its soundness clauses and its chord are about the corrected `obvious` and `immediate_grouping`. As written, `obvious` never plans, so there is no chord, and `immediate_grouping` can click a mine (`Deduction.ObviousAsWrittenNeverPlans`, `Deduction.ImmediateAsWrittenClicksMine`, see "## Findings").
- `Deduction.IndirectGrouping`: the `mark1` to `mark3` entries it appends to a plan are left out. They only colour cells on screen (minesweeper/game.py:364-366), and the director `Cell` modelled here has no such methods.
- `Deduction.FirstClick` takes the board size as positive, which `get_board_size` always gives (30 by 16).
- `RayTrace.Walk`: the update after the last yield is not modelled. It changes nothing that is yielded.
- The game's `run`/`mainloop` and the director `act` wiring are not modelled beyond one decision cycle (`Groups.Act`, `Deduction.GetNextMoves`).

## Findings

| source | as written | input that shows it | evidently intended | confidence | as-written member | corrected member |
|---|---|---|---|---|---|---|
| minesweeper/minesweeper_numpy.py:130-133 | The second `binary_dilation` writes into `output=self.reveals`, so clicking an empty cell replaces the whole reveal grid by that flood. | A 5x1 row with its mine in the middle and the left two cells revealed. Clicking (4, 0) hides (0, 0) again. | The flood's cells are added to the cells already revealed. | not executed | `NumpyBoard.ClickAsWritten`, `NumpyBoard.ClickForgetsExample` | `NumpyBoard.Click`, `NumpyBoard.ClickKeepsReveals` |
| minesweeper/raytrace.py:11 | `inc_x`/`inc_y` are 1 whenever the distance is non-zero, so the walk always heads right and down. | `int_trace(1, 0, 0, 0)` yields (1, 0) then (2, 0), never reaching (0, 0). | Step by the sign of `x1 - x0` and `y1 - y0`, so the walk ends at `(x1, y1)`. | not executed | `RayTrace.IntTraceAsWritten`, `RayTrace.TraceWalksAway` | `RayTrace.IntTrace` |
| minesweeper/director/base.py:126 | `get_neighbors` returns Python 3's one-shot `filter` iterator. In `obvious` the `flagged` comprehension exhausts it, so `unrevealed` is always empty and neither rule fires. This base.py is older than attempt1.py, which calls `get_neighbors(is_unrevealed=True)` (attempt1.py:227), a keyword this `get_neighbors` lacks. The claim rests on the `get_neighbors` shown here. | The row `1 #`: the `1` should flag the `#`, but `obvious` finds no plan on any board. | A list, as the docstring's `:rtype: list of Cell` says, so that both comprehensions see every neighbour. | not executed | `Deduction.ObviousAtAsWritten`, `Deduction.ObviousAsWrittenNeverPlans` | `Deduction.ObviousAt`, `Deduction.ObviousSound` |
| minesweeper/director/attempt1.py:188-192 | The same iterator in `immediate_grouping` leaves `unrevealed` empty. Every relative with an unrevealed cell then qualifies, and all its unrevealed cells are clicked or flagged, the shared ones included. The claim rests on base.py:112-126, which is older than attempt1.py (see the row above). | The row `1 # 1 #` with its mine under the first `#`: the rule clicks both `#`, the mine among them. | `unrevealed` holds the cell's real unrevealed neighbours, and only the relative's other cells are clicked. | not executed | `Deduction.ImmediatePairAsWritten`, `Deduction.ImmediateAsWrittenClicksMine` | `Deduction.ImmediatePair`, `Deduction.ImmediateGroupingSound` |
