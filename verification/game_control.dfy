/** What the playable game hands a director (minesweeper/game.py, GameControl and
    QueuedControl): the board as cell types, clicks addressed by position, and a queue that
    holds a director's actions until the game runs them. */
module GameControl {
  import opened Common
  import opened Grid
  import opened DirectorBase
  import opened GameCell
  import opened GameBoard

  // ---------------------------------------------------------------------------------------
  // The board as cell types

  /** The cached number of a cell, if it has one. */
  function NumberAt(g: Game, p: Coord): Option<int> {
    if p in g.numbers then Some(g.numbers[p]) else None
  }

  /** GameControl._convert_cell over the whole board: the type each cell's sprite shows. The
      mine sprites and the wrong-flag sprite show none. */
  function CellTypes(g: Game): (r: map<Coord, Option<int>>)
    ensures r.Keys == g.board.Keys
    ensures forall p | p in r ::
              var c := g.board[p];
              r[p].None? <==> (c.revealed && c.mine) || (g.gameOver && !c.revealed && (c.flagged != c.mine))
  {
    map p | p in g.board :: DirectorType(SpriteOf(g.board[p], NumberAt(g, p), g.gameOver))
  }

  /** The snapshot a director works on: every cell that shows a type. */
  function ToSnapshot(g: Game): (s: Snapshot)
    ensures s.Keys <= g.board.Keys
    ensures forall p | p in g.board :: p in s <==> CellTypes(g)[p].Some?
  {
    var types := CellTypes(g);
    map p | p in types && types[p].Some? :: types[p].value
  }

  /** A game a director is still playing: not over, no revealed mine, no revealed flag, and
      every safe cell's number right. */
  ghost predicate Playing(g: Game) {
    && !g.gameOver
    && NumbersAccurate(g)
    && forall p | p in g.board :: !(g.board[p].revealed && g.board[p].mine) && !(g.board[p].revealed && g.board[p].flagged)
  }

  /** While the game is on, every cell shows a type, and the true mines are a placement that
      agrees with the snapshot exactly when every flag sits on a mine. This is what makes the
      directors' soundness results speak about the real board. */
  lemma SnapshotConsistent(g: Game)
    requires Playing(g)
    ensures ToSnapshot(g).Keys == g.board.Keys
    ensures Consistent(ToSnapshot(g), Mines(g.board)) <==> Flags(g.board) <= Mines(g.board)
  {
    var snap := ToSnapshot(g);
    var mines := Mines(g.board);
    forall p | p in g.board ensures p in snap && SeenAs(g, p, snap[p]) {
      SeenCell(g, p);
    }
    if Flags(g.board) <= mines {
      forall c | c in snap && (IsNumber(snap[c]) || IsEmpty(snap[c]))
        ensures |NeighborsIn(snap, c) * mines| == snap[c]
      {
        NumberSeen(g, snap, c);
      }
    } else {
      var p :| p in Flags(g.board) && p !in mines;
      assert IsFlagged(snap[p]);
    }
  }

  /** How a cell of a game in play reads: hidden cells as unrevealed or flagged, revealed ones
      as their number. */
  ghost predicate SeenAs(g: Game, p: Coord, t: int)
    requires p in g.board
  {
    var c := g.board[p];
    && (IsUnrevealed(t) <==> !c.revealed && !c.flagged)
    && (IsFlagged(t) <==> c.flagged)
    && (c.revealed ==> p in g.numbers && t == g.numbers[p])
  }

  lemma SeenCell(g: Game, p: Coord)
    requires Playing(g) && p in g.board
    ensures p in ToSnapshot(g) && SeenAs(g, p, ToSnapshot(g)[p])
  {
    var c := g.board[p];
    if c.mine {
      SpriteHidesMines(c, NumberAt(g, p), None);
    } else {
      assert p in g.numbers && 0 <= g.numbers[p] <= 8;
      DirectorSeesCell(c, NumberAt(g, p));
    }
  }

  /** A number a director sees counts the true mines around its cell. */
  lemma NumberSeen(g: Game, snap: Snapshot, c: Coord)
    requires Playing(g) && snap == ToSnapshot(g) && snap.Keys == g.board.Keys
    requires c in snap && (IsNumber(snap[c]) || IsEmpty(snap[c])) && SeenAs(g, c, snap[c])
    ensures |NeighborsIn(snap, c) * Mines(g.board)| == snap[c]
  {
    var b := g.board;
    assert b[c].revealed;
    assert NeighborsIn(snap, c) * Mines(b) == set p | p in NeighborsIn(b, c) && b[p].mine;
  }

  // ---------------------------------------------------------------------------------------
  // Clicks addressed by position

  /** GameControl raises IndexError when no cell sits at the position. */
  datatype ControlError = NoCell(x: int, y: int)

  /** What a director can ask for: a click with one of the three buttons, or a mark. */
  datatype Input = LeftButton | MiddleButton | RightButton | MarkButton(n: int)

  /** The button number the game receives; a mark is 1000 plus its number. */
  function Button(input: Input): (b: int)
    ensures input.MarkButton? ==> b == 1000 + input.n
    ensures !input.MarkButton? ==> b in {1, 2, 3}
  {
    match input
    case LeftButton => 1
    case MiddleButton => 2
    case RightButton => 3
    case MarkButton(n) => 1000 + n
  }

  /** GameControl.click, middle_click, right_click and mark: look the cell up, failing when
      there is none, and hand the button to the game. */
  method Control(g: Game, input: Input, x: int, y: int, clearNeighbors: bool, pool: seq<Coord>)
    returns (r: Result<Game, ControlError>)
    requires forall p :: p in pool <==> p in g.board
    ensures r.Err? <==> (x, y) !in g.board
    ensures r.Err? ==> r.error == NoCell(x, y)
    ensures r.Ok? ==>
              && r.value.board.Keys == g.board.Keys
              && r.value.minesLeft + |Flags(r.value.board)| == g.minesLeft + |Flags(g.board)|
              && |Mines(r.value.board)| == |Mines(g.board)|
              && (NumbersAccurate(g) ==> NumbersAccurate(r.value))
    ensures r.Ok? && Button(input) !in {1, 2, 3} ==> r.value == g
    ensures r.Ok? && input == RightButton ==> r.value == RightClick(g, (x, y))
    ensures r.Ok? && !input.MarkButton? ==> Performs(g, Entry(input, x, y), r.value, clearNeighbors)
  {
    if (x, y) !in g.board {
      return Err(NoCell(x, y));
    }
    var next := HandleClick(g, Button(input), (x, y), clearNeighbors, pool);
    r := Ok(next);
  }

  // ---------------------------------------------------------------------------------------
  // The action queue

  /** A queued action: what was asked for and where. A mark is queued as an action that does
      nothing when run. */
  datatype Entry = Entry(input: Input, x: int, y: int)

  /** QueuedControl.click, middle_click, right_click and mark: append to the queue. */
  function Enqueue(queue: seq<Entry>, input: Input, x: int, y: int): (r: seq<Entry>)
    ensures |r| == |queue| + 1 && r[..|queue|] == queue && r[|queue|] == Entry(input, x, y)
  {
    queue + [Entry(input, x, y)]
  }

  /** QueuedControl.get_actions: the button and position of every queued action, in order. */
  function GetActions(queue: seq<Entry>): (r: seq<(int, int, int)>)
    ensures |r| == |queue|
    ensures forall i | 0 <= i < |queue| :: r[i] == (Button(queue[i].input), queue[i].x, queue[i].y)
  {
    seq(|queue|, i requires 0 <= i < |queue| => (Button(queue[i].input), queue[i].x, queue[i].y))
  }

  /** Queuing an action lists it after every action already listed. */
  lemma ActionsAfterEnqueue(queue: seq<Entry>, input: Input, x: int, y: int)
    ensures GetActions(Enqueue(queue, input, x, y)) == GetActions(queue) + [(Button(input), x, y)]
  {
    var r := GetActions(Enqueue(queue, input, x, y));
    var s := GetActions(queue) + [(Button(input), x, y)];
    assert |r| == |s|;
    forall i | 0 <= i < |r| ensures r[i] == s[i] {
      if i < |queue| {
        assert Enqueue(queue, input, x, y)[i] == queue[i];
      }
    }
  }

  /** Whether running the entry can go through: a mark always can, a click needs its cell. */
  predicate Runs(board: Board, e: Entry) {
    e.input.MarkButton? || (e.x, e.y) in board
  }

  /** `after` is a game running entry `e` on `before` can give: a mark does nothing, a right
      click toggles the flag, and a left or middle click does what `HandleClick` promises for
      buttons 1 and 2. */
  ghost predicate Performs(before: Game, e: Entry, after: Game, clearNeighbors: bool) {
    var c := (e.x, e.y);
    match e.input
    case MarkButton(_) => after == before
    case RightButton => c in before.board && after == RightClick(before, c)
    case LeftButton => c in before.board && LeftClicked(before, c, clearNeighbors, after)
    case MiddleButton => c in before.board && Chorded(before, c, after)
  }

  /** Running a right click on a hidden cell always changes the game: its flag flips. */
  lemma RightClickStepChanges(g: Game, x: int, y: int, after: Game, clearNeighbors: bool)
    requires (x, y) in g.board && !g.board[(x, y)].revealed
    requires Performs(g, Entry(RightButton, x, y), after, clearNeighbors)
    ensures after != g && after.board[(x, y)].flagged != g.board[(x, y)].flagged
  {
  }

  /** How many entries run before the first that cannot: all of them when none fails. */
  function RunLength(board: Board, queue: seq<Entry>): (n: nat)
    ensures n <= |queue|
    ensures forall i | 0 <= i < n :: Runs(board, queue[i])
    ensures n < |queue| ==> !Runs(board, queue[n])
  {
    match FirstFailure(board, queue)
    case None => |queue|
    case Some(k) => k
  }

  /** The position of the first entry that cannot run, if any. */
  function {:induction false} FirstFailure(board: Board, queue: seq<Entry>): (r: Option<nat>)
    ensures r.None? <==> forall i | 0 <= i < |queue| :: Runs(board, queue[i])
    ensures r.Some? ==>
              && r.value < |queue| && !Runs(board, queue[r.value])
              && forall i | 0 <= i < r.value :: Runs(board, queue[i])
    decreases |queue|
  {
    if queue == [] then None
    else if !Runs(board, queue[0]) then Some(0)
    else
      match FirstFailure(board, queue[1..])
      case None => None
      case Some(k) => Some(k + 1)
  }

  /** QueuedControl.exec_queue: run the queued actions first to last. When one fails, running
      stops there; the failed action is dropped and the ones after it stay queued in their
      order. `trace` is the game before each action that ran and after the last: entry `j`
      takes `trace[j]` to `trace[j + 1]`. Every action that ran kept the mines-left
      bookkeeping and the mine count. */
  method ExecQueue(g: Game, queue: seq<Entry>, clearNeighbors: bool, pool: seq<Coord>)
    returns (r: Game, rest: seq<Entry>, failed: Option<ControlError>, trace: seq<Game>)
    requires forall p :: p in pool <==> p in g.board
    ensures |trace| == RunLength(g.board, queue) + 1
    ensures trace[0] == g && r == trace[|trace| - 1]
    ensures forall j | 0 <= j < |trace| - 1 :: Performs(trace[j], queue[j], trace[j + 1], clearNeighbors)
    ensures r.board.Keys == g.board.Keys
    ensures r.minesLeft + |Flags(r.board)| == g.minesLeft + |Flags(g.board)|
    ensures |Mines(r.board)| == |Mines(g.board)|
    ensures NumbersAccurate(g) ==> NumbersAccurate(r)
    ensures FirstFailure(g.board, queue).None? ==> rest == [] && failed.None?
    ensures FirstFailure(g.board, queue).Some? ==>
              var k := FirstFailure(g.board, queue).value;
              rest == queue[k + 1..] && failed == Some(NoCell(queue[k].x, queue[k].y))
  {
    r := g;
    trace := [g];
    var i := 0;
    while i < |queue|
      invariant 0 <= i <= |queue|
      invariant |trace| == i + 1 && trace[0] == g && r == trace[i]
      invariant forall j | 0 <= j < i :: Performs(trace[j], queue[j], trace[j + 1], clearNeighbors)
      invariant r.board.Keys == g.board.Keys
      invariant r.minesLeft + |Flags(r.board)| == g.minesLeft + |Flags(g.board)|
      invariant |Mines(r.board)| == |Mines(g.board)|
      invariant NumbersAccurate(g) ==> NumbersAccurate(r)
      invariant forall j | 0 <= j < i :: Runs(g.board, queue[j])
    {
      var e := queue[i];
      if !e.input.MarkButton? {
        var out := Control(r, e.input, e.x, e.y, clearNeighbors, pool);
        if out.Err? {
          FirstFailureAt(g.board, queue, i);
          return r, queue[i + 1..], Some(out.error), trace;
        }
        r := out.value;
      }
      trace := trace + [r];
      i := i + 1;
    }
    rest, failed := [], None;
  }

  lemma FirstFailureAt(board: Board, queue: seq<Entry>, i: nat)
    requires i < |queue| && !Runs(board, queue[i])
    requires forall j | 0 <= j < i :: Runs(board, queue[j])
    ensures FirstFailure(board, queue) == Some(i)
  {
    var k := FirstFailure(board, queue).value;
    assert !(k < i) && !(i < k);
  }
}
