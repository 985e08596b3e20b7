/** The playable board (minesweeper/game.py, classes Cell and Game): clicks, the flood that
    opens the area around an empty cell, chording, flags, the mine relocation that makes the
    first click safe, and the winning test. */
module GameBoard {
  import opened Common
  import opened Grid
  import opened GameCell

  type Board = map<Coord, CellState>

  /** `numbers` caches each cell's neighbouring-mine count; a mine that never had one is
      missing. `gameOver` is the per-cell game-over mark, which is always set on every cell at
      once. */
  datatype Game = Game(
    width: int, height: int,
    board: Board, numbers: map<Coord, int>,
    minesLeft: int, lost: bool, won: bool, inPlay: bool, hasRevealed: bool, gameOver: bool)

  function Mines(board: Board): set<Coord> {
    set p | p in board && board[p].mine
  }

  function Flags(board: Board): set<Coord> {
    set p | p in board && board[p].flagged
  }

  /** The number of mines next to `c`. */
  function MineCount(board: Board, c: Coord): (n: int)
    ensures 0 <= n <= 8
  {
    var ms := set p | p in NeighborsIn(board, c) && board[p].mine;
    SubsetCard(ms, NeighborsIn(board, c));
    |ms|
  }

  /** Recount the mines around every safe cell; a mine keeps whatever number it had. */
  function DetermineNumbers(board: Board, numbers: map<Coord, int>): (r: map<Coord, int>)
    ensures forall p | p in board && !board[p].mine :: p in r && r[p] == MineCount(board, p)
    ensures forall p | p in r :: p in board && (board[p].mine ==> p in numbers && r[p] == numbers[p])
  {
    map p | p in board && (!board[p].mine || p in numbers) ::
      if !board[p].mine then MineCount(board, p) else numbers[p]
  }

  /** The cached number of every safe cell is its neighbouring-mine count. */
  ghost predicate NumbersAccurate(g: Game) {
    forall p | p in g.board && !g.board[p].mine :: p in g.numbers && g.numbers[p] == MineCount(g.board, p)
  }

  predicate IsZero(numbers: map<Coord, int>, p: Coord) {
    p in numbers && numbers[p] == 0
  }

  /** Same cells, same mines, same flags. */
  ghost predicate SameLayout(a: Board, b: Board) {
    a.Keys == b.Keys && forall p | p in a :: b[p].mine == a[p].mine && b[p].flagged == a[p].flagged
  }

  /** Nothing revealed in `a` is hidden in `b`. */
  ghost predicate RevealedGrows(a: Board, b: Board)
    requires a.Keys <= b.Keys
  {
    forall p | p in a && a[p].revealed :: b[p].revealed
  }

  /** Reveal every cell of `s`. */
  function RevealAll(board: Board, s: set<Coord>): (r: Board)
    ensures r.Keys == board.Keys
    ensures forall p | p in r :: r[p] == if p in s then board[p].(revealed := true) else board[p]
  {
    map p | p in board :: if p in s then board[p].(revealed := true) else board[p]
  }

  // ---------------------------------------------------------------------------------------
  // cascade_empty

  /** Every safe, unflagged neighbour of `z` is revealed. */
  ghost predicate Opened(board: Board, z: Coord) {
    forall n | n in NeighborsIn(board, z) && !board[n].mine && !board[n].flagged :: board[n].revealed
  }

  /** The empty cells the flood started from `start` has reached: the start and every empty
      cell it revealed. */
  function Reached(orig: Board, board: Board, numbers: map<Coord, int>, start: Coord): set<Coord> {
    set p | p in orig && p in board && (p == start || (board[p].revealed && !orig[p].revealed)) && IsZero(numbers, p)
  }

  /** A cell the flood revealed lies next to an empty cell the flood reached. */
  ghost predicate Justified(orig: Board, board: Board, numbers: map<Coord, int>, start: Coord)
    requires orig.Keys == board.Keys
  {
    forall p | p in board && board[p].revealed && !orig[p].revealed ::
      !board[p].mine && !board[p].flagged && exists z | z in Reached(orig, board, numbers, start) :: Adjacent(z, p)
  }

  function HiddenSafe(board: Board): set<Coord> {
    set p | p in board && !board[p].revealed && !board[p].mine
  }

  /** The flood's loop facts: the layout is untouched, revealed cells stay revealed, each
      newly revealed cell is justified, the queue holds reached empty cells, and every other
      reached empty cell is opened. */
  ghost predicate FloodInv(orig: Board, r: Board, numbers: map<Coord, int>, start: Coord, queue: set<Coord>) {
    && SameLayout(orig, r) && RevealedGrows(orig, r)
    && (forall p | p in r :: r[p].losing == orig[p].losing)
    && Justified(orig, r, numbers, start)
    && queue <= Reached(orig, r, numbers, start)
    && forall z | z in Reached(orig, r, numbers, start) && z !in queue :: Opened(r, z)
  }

  /** Reveal the area around the revealed empty cell `start`: work through a set of empty cells,
      revealing each one's safe unflagged neighbours and queueing those that are empty too. On
      return every empty cell reached is opened, and every cell revealed lies next to one. */
  method CascadeEmpty(board: Board, numbers: map<Coord, int>, start: Coord) returns (r: Board)
    requires start in board && board[start].revealed && IsZero(numbers, start)
    ensures SameLayout(board, r) && RevealedGrows(board, r)
    ensures forall p | p in r :: r[p].losing == board[p].losing
    ensures forall p | p in r && r[p].revealed && !board[p].revealed :: !r[p].mine && !r[p].flagged
    ensures Justified(board, r, numbers, start)
    ensures forall z | z in Reached(board, r, numbers, start) :: Opened(r, z)
  {
    r := board;
    var queue := {start};
    assert start in Reached(board, r, numbers, start);
    while queue != {}
      invariant FloodInv(board, r, numbers, start, queue)
      decreases |HiddenSafe(r)|, |queue|
    {
      var c :| c in queue;
      var opening := set n | n in NeighborsIn(r, c) && !r[n].mine && !r[n].revealed && !r[n].flagged;
      if opening == {} {
        FloodSkip(board, r, numbers, start, queue, c);
        queue := queue - {c};
      } else {
        var next := RevealAll(r, opening);
        FloodStep(board, r, next, numbers, start, queue, c, opening);
        ShrinkHidden(r, next, opening);
        queue := queue - {c} + (set n | n in opening && IsZero(numbers, n));
        r := next;
      }
    }
  }

  /** A queued cell with nothing left to open is already opened. */
  lemma FloodSkip(orig: Board, r: Board, numbers: map<Coord, int>, start: Coord, queue: set<Coord>, c: Coord)
    requires FloodInv(orig, r, numbers, start, queue) && c in queue
    requires (set n | n in NeighborsIn(r, c) && !r[n].mine && !r[n].revealed && !r[n].flagged) == {}
    ensures FloodInv(orig, r, numbers, start, queue - {c})
  {
    assert Opened(r, c) by {
      forall n | n in NeighborsIn(r, c) && !r[n].mine && !r[n].flagged ensures r[n].revealed {
        assert n !in (set n | n in NeighborsIn(r, c) && !r[n].mine && !r[n].revealed && !r[n].flagged);
      }
    }
    forall z | z in Reached(orig, r, numbers, start) && z !in queue - {c} ensures Opened(r, z) {
      if z != c {
        assert z !in queue;
      }
    }
  }

  /** One step of the flood keeps the loop's facts. */
  lemma FloodStep(orig: Board, r: Board, next: Board, numbers: map<Coord, int>, start: Coord,
                  queue: set<Coord>, c: Coord, opening: set<Coord>)
    requires FloodInv(orig, r, numbers, start, queue) && c in queue
    requires opening == set n | n in NeighborsIn(r, c) && !r[n].mine && !r[n].revealed && !r[n].flagged
    requires next == RevealAll(r, opening)
    ensures FloodInv(orig, next, numbers, start, queue - {c} + (set n | n in opening && IsZero(numbers, n)))
  {
    RevealKeepsLayout(orig, r, opening);
    FloodReached(orig, r, next, numbers, start, opening);
    FloodStepJustified(orig, r, next, numbers, start, c, opening);
    FloodStepOpened(orig, r, next, numbers, start, queue, c, opening);
  }

  lemma RevealKeepsLayout(orig: Board, r: Board, opening: set<Coord>)
    requires SameLayout(orig, r) && RevealedGrows(orig, r)
    requires forall p | p in r :: r[p].losing == orig[p].losing
    ensures var next := RevealAll(r, opening);
            && SameLayout(orig, next) && RevealedGrows(orig, next)
            && (forall p | p in next :: next[p].losing == orig[p].losing)
  {
  }

  lemma FloodReached(orig: Board, r: Board, next: Board, numbers: map<Coord, int>, start: Coord, opening: set<Coord>)
    requires SameLayout(orig, r) && RevealedGrows(orig, r) && opening <= r.Keys
    requires forall p | p in opening :: !r[p].revealed
    requires next == RevealAll(r, opening)
    ensures Reached(orig, next, numbers, start) == Reached(orig, r, numbers, start) + (set n | n in opening && IsZero(numbers, n))
  {
  }

  lemma FloodStepOpened(orig: Board, r: Board, next: Board, numbers: map<Coord, int>, start: Coord,
                        queue: set<Coord>, c: Coord, opening: set<Coord>)
    requires FloodInv(orig, r, numbers, start, queue) && c in queue
    requires opening == set n | n in NeighborsIn(r, c) && !r[n].mine && !r[n].revealed && !r[n].flagged
    requires next == RevealAll(r, opening)
    requires Reached(orig, next, numbers, start) == Reached(orig, r, numbers, start) + (set n | n in opening && IsZero(numbers, n))
    ensures forall z | z in Reached(orig, next, numbers, start) && z !in queue - {c} + (set n | n in opening && IsZero(numbers, n)) ::
              Opened(next, z)
  {
    forall z | z in Reached(orig, next, numbers, start) && z !in queue - {c} + (set n | n in opening && IsZero(numbers, n))
      ensures Opened(next, z)
    {
      assert NeighborsIn(next, z) == NeighborsIn(r, z);
    }
  }

  lemma FloodStepJustified(orig: Board, r: Board, next: Board, numbers: map<Coord, int>, start: Coord,
                           c: Coord, opening: set<Coord>)
    requires SameLayout(orig, r) && Justified(orig, r, numbers, start)
    requires c in Reached(orig, r, numbers, start)
    requires opening == set n | n in NeighborsIn(r, c) && !r[n].mine && !r[n].revealed && !r[n].flagged
    requires next == RevealAll(r, opening)
    ensures Justified(orig, next, numbers, start)
  {
    var reached, reached' := Reached(orig, r, numbers, start), Reached(orig, next, numbers, start);
    assert reached <= reached';
    forall p | p in next && next[p].revealed && !orig[p].revealed
      ensures !next[p].mine && !next[p].flagged && exists z | z in reached' :: Adjacent(z, p)
    {
      if p in opening {
        assert c in reached';
      } else {
        var z :| z in reached && Adjacent(z, p);
      }
    }
  }

  lemma ShrinkHidden(r: Board, next: Board, opening: set<Coord>)
    requires opening != {} && opening <= HiddenSafe(r)
    requires next == RevealAll(r, opening)
    ensures |HiddenSafe(next)| < |HiddenSafe(r)|
  {
    assert HiddenSafe(next) == HiddenSafe(r) - opening;
    DifferenceCard(HiddenSafe(r), opening);
  }

  // ---------------------------------------------------------------------------------------
  // Clicks

  function Lose(g: Game): (r: Game)
    ensures r.lost && !r.inPlay && r.gameOver
  {
    g.(lost := true, inPlay := false, gameOver := true)
  }

  /** Clicking `c` now would explode a mine. */
  predicate Detonates(board: Board, c: Coord)
    requires c in board
  {
    board[c].mine && !board[c].revealed && !board[c].flagged
  }

  /** Left-click one cell (Cell.handle_click): a revealed or flagged cell ignores it; otherwise
      the cell is revealed, a mine loses the game, and an empty cell floods its area. */
  method CellClick(g: Game, c: Coord) returns (r: Game)
    requires c in g.board
    ensures SameLayout(g.board, r.board) && RevealedGrows(g.board, r.board)
    ensures g.board[c].revealed || g.board[c].flagged ==> r == g
    ensures !g.board[c].flagged ==> r.board[c].revealed
    ensures var boom := Detonates(g.board, c);
            r == g.(board := r.board, lost := g.lost || boom, gameOver := g.gameOver || boom,
                    inPlay := g.inPlay && !boom,
                    hasRevealed := g.hasRevealed || !(g.board[c].revealed || g.board[c].flagged))
    ensures forall p | p in r.board && r.board[p].revealed && !g.board[p].revealed ::
              !r.board[p].flagged && (r.board[p].mine ==> p == c)
    ensures forall p | p in r.board && p != c :: r.board[p].losing == g.board[p].losing
    ensures r.board[c].losing == (g.board[c].losing || Detonates(g.board, c))
  {
    var cell := g.board[c];
    if cell.revealed || cell.flagged {
      return g;
    }
    if cell.mine {
      var b := g.board[c := cell.(revealed := true, losing := true)];
      ExplodeLayout(g.board, c);
      r := Lose(g.(board := b, hasRevealed := true));
    } else {
      var b := OpenSafe(g.board, g.numbers, c);
      r := g.(board := b, hasRevealed := true);
    }
  }

  /** Revealing the clicked mine changes that cell alone. */
  lemma ExplodeLayout(board: Board, c: Coord)
    requires c in board && !board[c].revealed && !board[c].flagged
    ensures var b := board[c := board[c].(revealed := true, losing := true)];
            && SameLayout(board, b) && RevealedGrows(board, b)
            && (forall p | p in b && b[p].revealed && !board[p].revealed :: p == c)
            && (forall p | p in b && p != c :: b[p] == board[p])
  {
  }

  /** Reveal the safe cell `c`, flooding from it when it is empty. */
  method OpenSafe(board: Board, numbers: map<Coord, int>, c: Coord) returns (r: Board)
    requires c in board && !board[c].mine && !board[c].revealed && !board[c].flagged
    ensures SameLayout(board, r) && RevealedGrows(board, r) && r[c].revealed
    ensures forall p | p in r :: r[p].losing == board[p].losing
    ensures forall p | p in r && r[p].revealed && !board[p].revealed :: !r[p].mine && !r[p].flagged
  {
    r := board[c := board[c].(revealed := true)];
    if IsZero(numbers, c) {
      var b := r;
      r := CascadeEmpty(b, numbers, c);
    }
  }

  /** Right-click (Cell.handle_right_click): toggle the flag of a cell that is not revealed and
      move the mines-left counter the other way. */
  function RightClick(g: Game, c: Coord): (r: Game)
    requires c in g.board
    ensures g.board[c].revealed ==> r == g
    ensures !g.board[c].revealed ==>
              && r.board == g.board[c := g.board[c].(flagged := !g.board[c].flagged)]
              && r.minesLeft == g.minesLeft + (if g.board[c].flagged then 1 else -1)
    ensures r.minesLeft + |Flags(r.board)| == g.minesLeft + |Flags(g.board)|
  {
    var cell := g.board[c];
    if cell.revealed then g
    else
      var b := g.board[c := cell.(flagged := !cell.flagged)];
      var r := g.(board := b, minesLeft := if cell.flagged then g.minesLeft + 1 else g.minesLeft - 1);
      FlagToggleCount(g.board, c);
      r
  }

  /** A flag never moves a mine, so the mines and the cached numbers stay right. */
  lemma RightClickKeepsMines(g: Game, c: Coord)
    requires c in g.board
    ensures Mines(RightClick(g, c).board) == Mines(g.board)
    ensures NumbersAccurate(g) ==> NumbersAccurate(RightClick(g, c))
  {
    SameMines(g.board, RightClick(g, c).board);
    AccurateAfterClick(g, RightClick(g, c));
  }

  /** Right-clicking the same cell twice changes nothing. */
  lemma RightClickInvolution(g: Game, c: Coord)
    requires c in g.board
    ensures RightClick(RightClick(g, c), c) == g
  {
    var cell := g.board[c];
    if !cell.revealed {
      assert g.board[c := cell.(flagged := !cell.flagged)][c := cell] == g.board;
    }
  }

  lemma FlagToggleCount(board: Board, c: Coord)
    requires c in board
    ensures var b := board[c := board[c].(flagged := !board[c].flagged)];
            |Flags(b)| == if board[c].flagged then |Flags(board)| - 1 else |Flags(board)| + 1
  {
    var b := board[c := board[c].(flagged := !board[c].flagged)];
    if board[c].flagged {
      assert Flags(board) == Flags(b) + {c};
    } else {
      assert Flags(b) == Flags(board) + {c};
    }
  }

  /** The unflagged hidden neighbours a chord on `c` clicks. */
  function ChordTargets(board: Board, c: Coord): set<Coord> {
    set n | n in NeighborsIn(board, c) && !board[n].flagged && !board[n].revealed
  }

  function FlaggedAround(board: Board, c: Coord): set<Coord> {
    set n | n in NeighborsIn(board, c) && board[n].flagged
  }

  /** A middle-click on `c` chords: `c` has a number and that many flagged neighbours. */
  predicate Chords(g: Game, c: Coord) {
    c in g.numbers && |FlaggedAround(g.board, c)| == g.numbers[c]
  }

  /** Middle-click (Cell.handle_middle_click, cascade): a cell with a number whose flagged
      neighbours match it clicks every unflagged hidden neighbour, in any order. The chord loses
      exactly when one of them is a mine; otherwise all of them end up revealed. */
  method MiddleClick(g: Game, c: Coord) returns (r: Game)
    requires c in g.board
    ensures SameLayout(g.board, r.board) && RevealedGrows(g.board, r.board)
    ensures r.numbers == g.numbers && r.minesLeft == g.minesLeft
    ensures r == g.(board := r.board, lost := r.lost, inPlay := r.inPlay, gameOver := r.gameOver,
                    hasRevealed := r.hasRevealed)
    ensures !Chords(g, c) ==> r == g
    ensures forall p | p in r.board && r.board[p].revealed && !g.board[p].revealed ::
              !g.board[p].flagged && (g.board[p].mine ==> p in ChordTargets(g.board, c))
    ensures Chords(g, c) ==> forall n | n in ChordTargets(g.board, c) :: r.board[n].revealed
    ensures r.lost <==> g.lost || (Chords(g, c) && ChordTargets(g.board, c) * Mines(g.board) != {})
    ensures Flags(r.board) == Flags(g.board) && Mines(r.board) == Mines(g.board)
    ensures NumbersAccurate(g) ==> NumbersAccurate(r)
  {
    r := g;
    if !Chords(g, c) {
      return;
    }
    var targets := ChordTargets(g.board, c);
    var todo := targets;
    while todo != {}
      invariant ChordInv(g, r, targets, todo)
      decreases |todo|
    {
      var t :| t in todo;
      var before := r;
      r := CellClick(r, t);
      ChordStep(g, before, r, targets, todo, t);
      todo := todo - {t};
    }
    SameFlags(g.board, r.board);
    SameMines(g.board, r.board);
    AccurateAfterClick(g, r);
  }

  /** The chord's loop facts: clicked targets are revealed, unclicked target mines are still
      hidden, a newly revealed mine is a clicked target, and the game is lost exactly when a
      clicked target was a mine. */
  ghost predicate ChordInv(g: Game, r: Game, targets: set<Coord>, todo: set<Coord>) {
    && todo <= targets && targets <= g.board.Keys
    && (forall n | n in targets :: !g.board[n].flagged && !g.board[n].revealed)
    && SameLayout(g.board, r.board) && RevealedGrows(g.board, r.board)
    && r.numbers == g.numbers && r.minesLeft == g.minesLeft
    && r == g.(board := r.board, lost := r.lost, inPlay := r.inPlay, gameOver := r.gameOver,
               hasRevealed := r.hasRevealed)
    && (forall p | p in r.board && r.board[p].revealed && !g.board[p].revealed ::
          !g.board[p].flagged && (g.board[p].mine ==> p in targets - todo))
    && (forall n | n in targets - todo :: r.board[n].revealed)
    && (forall n | n in todo :: r.board[n].mine ==> !r.board[n].revealed)
    && (r.lost <==> g.lost || (targets - todo) * Mines(g.board) != {})
  }

  lemma ChordStep(g: Game, before: Game, r: Game, targets: set<Coord>, todo: set<Coord>, t: Coord)
    requires ChordInv(g, before, targets, todo) && t in todo
    requires SameLayout(before.board, r.board) && RevealedGrows(before.board, r.board)
    requires r.numbers == before.numbers && r.minesLeft == before.minesLeft
    requires r == before.(board := r.board, lost := r.lost, inPlay := r.inPlay, gameOver := r.gameOver,
                          hasRevealed := r.hasRevealed)
    requires r.board[t].revealed
    requires r.lost == (before.lost || Detonates(before.board, t))
    requires forall p | p in r.board && r.board[p].revealed && !before.board[p].revealed ::
               !r.board[p].flagged && (r.board[p].mine ==> p == t)
    ensures ChordInv(g, r, targets, todo - {t})
  {
    assert t in Mines(g.board) <==> before.board[t].mine;
    assert Detonates(before.board, t) <==> t in Mines(g.board);
    assert (targets - (todo - {t})) * Mines(g.board) == ((targets - todo) * Mines(g.board)) + ({t} * Mines(g.board));
    assert SameLayout(g.board, r.board);
    assert RevealedGrows(g.board, r.board);
    assert forall n | n in targets - (todo - {t}) :: r.board[n].revealed;
    assert forall n | n in todo - {t} :: r.board[n].mine ==> !r.board[n].revealed;
    if t in Mines(g.board) {
      assert t in {t} * Mines(g.board);
    } else {
      assert {t} * Mines(g.board) == {};
    }
  }

  // ---------------------------------------------------------------------------------------
  // The first click

  /** Move every mine off `targets` (Game._clear_cells): walk a shuffled list of all cells from
      its end, and give each target mine to the next cell that is neither a target nor a mine.
      The number of mines is kept, no target gains a mine, no mine off the targets moves, and
      when the board has room for all mines outside the targets, every target ends up safe. */
  method ClearCells(board: Board, targets: set<Coord>, pool: seq<Coord>) returns (r: Board)
    requires targets <= board.Keys
    requires forall p :: p in pool <==> p in board
    ensures r.Keys == board.Keys
    ensures forall p | p in r :: r[p] == board[p].(mine := r[p].mine)
    ensures |Mines(r)| == |Mines(board)|
    ensures Mines(r) * targets <= Mines(board) * targets
    ensures Mines(board) - targets <= Mines(r)
    ensures |Mines(board)| <= |board.Keys - targets| ==> Mines(r) * targets == {}
  {
    r := board;
    var k := |pool|;
    var todo := targets;
    assert pool[..k] == pool;
    while todo != {}
      invariant todo <= targets
      invariant ClearInv(board, targets, pool, r, k, targets - todo)
      decreases |todo|
    {
      var t :| t in todo;
      if r[t].mine {
        r, k := Relocate(board, targets, pool, r, k, targets - todo, t);
      } else {
        assert (targets - todo + {t}) * Mines(r) == (targets - todo) * Mines(r);
      }
      assert targets - (todo - {t}) == targets - todo + {t};
      todo := todo - {t};
    }
    ClearedWhenRoom(board, targets, pool, r, k);
  }

  /** The facts `ClearCells` keeps: only mine bits change, the mine count is kept, no target
      gains a mine, no mine off the targets moves, every free non-target cell is still ahead in the list, and a processed
      target still holds a mine only once the list is used up. */
  ghost predicate ClearInv(board: Board, targets: set<Coord>, pool: seq<Coord>, r: Board, k: int, done: set<Coord>) {
    && 0 <= k <= |pool| && done <= targets
    && r.Keys == board.Keys
    && (forall p | p in r :: r[p] == board[p].(mine := r[p].mine))
    && |Mines(r)| == |Mines(board)|
    && Mines(r) * targets <= Mines(board) * targets
    && Mines(board) - targets <= Mines(r)
    && (forall p | p in r && p !in targets && !r[p].mine :: p in pool[..k])
    && (done * Mines(r) != {} ==> k == 0)
  }

  /** Pop cells off the list until one can take the mine of target `t`. */
  method Relocate(board: Board, targets: set<Coord>, pool: seq<Coord>, r0: Board, k0: int,
                  done: set<Coord>, t: Coord) returns (r: Board, k: int)
    requires ClearInv(board, targets, pool, r0, k0, done)
    requires forall p :: p in pool ==> p in board
    requires t in targets && t !in done && t in r0 && r0[t].mine
    ensures ClearInv(board, targets, pool, r, k, done + {t})
  {
    r, k := r0, k0;
    var moved := false;
    while k > 0 && !moved
      invariant ClearInv(board, targets, pool, r, k, done)
      invariant t in r && (moved <==> !r[t].mine)
      decreases k
    {
      var p := pool[k - 1];
      if p !in targets && !r[p].mine {
        PopMove(board, targets, pool, r, k, done, t);
        r := r[p := r[p].(mine := true)][t := r[t].(mine := false)];
        moved := true;
      } else {
        PopSkip(board, targets, pool, r, k, done);
      }
      k := k - 1;
    }
    if moved {
      assert (done + {t}) * Mines(r) == done * Mines(r);
    }
  }

  /** Popping a target or a mine keeps the facts. */
  lemma PopSkip(board: Board, targets: set<Coord>, pool: seq<Coord>, r: Board, k: int, done: set<Coord>)
    requires ClearInv(board, targets, pool, r, k, done) && k > 0
    requires pool[k - 1] in r && (pool[k - 1] in targets || r[pool[k - 1]].mine)
    ensures ClearInv(board, targets, pool, r, k - 1, done)
  {
    forall q | q in r && q !in targets && !r[q].mine ensures q in pool[..k - 1] {
      var i :| 0 <= i < k && pool[i] == q;
      assert i != k - 1;
    }
  }

  /** Giving the mine of target `t` to the popped free cell keeps the facts. */
  lemma PopMove(board: Board, targets: set<Coord>, pool: seq<Coord>, r: Board, k: int, done: set<Coord>, t: Coord)
    requires ClearInv(board, targets, pool, r, k, done) && k > 0
    requires t in targets && t !in done && t in r && r[t].mine
    requires pool[k - 1] in r && pool[k - 1] !in targets && !r[pool[k - 1]].mine
    ensures var p := pool[k - 1];
            ClearInv(board, targets, pool, r[p := r[p].(mine := true)][t := r[t].(mine := false)], k - 1, done)
  {
    var p := pool[k - 1];
    var r' := r[p := r[p].(mine := true)][t := r[t].(mine := false)];
    MoveMine(r, t, p);
    MoveKeepsShape(board, r, t, p);
    MoveKeepsFree(pool, targets, r, k, t, p);
    var m, m' := Mines(r), Mines(r');
    assert m' * targets <= m * targets;
    assert done * m' == done * m by {
      assert p !in done && t !in done;
    }
  }

  lemma MoveKeepsShape(board: Board, r: Board, t: Coord, p: Coord)
    requires r.Keys == board.Keys && t in r && p in r
    requires forall q | q in r :: r[q] == board[q].(mine := r[q].mine)
    ensures var r' := r[p := r[p].(mine := true)][t := r[t].(mine := false)];
            r'.Keys == board.Keys && forall q | q in r' :: r'[q] == board[q].(mine := r'[q].mine)
  {
  }

  lemma MoveKeepsFree(pool: seq<Coord>, targets: set<Coord>, r: Board, k: int, t: Coord, p: Coord)
    requires 0 < k <= |pool| && p == pool[k - 1] && t in targets && p in r && t in r
    requires forall q | q in r && q !in targets && !r[q].mine :: q in pool[..k]
    ensures var r' := r[p := r[p].(mine := true)][t := r[t].(mine := false)];
            forall q | q in r' && q !in targets && !r'[q].mine :: q in pool[..k - 1]
  {
    var r' := r[p := r[p].(mine := true)][t := r[t].(mine := false)];
    forall q | q in r' && q !in targets && !r'[q].mine ensures q in pool[..k - 1] {
      assert q in pool[..k];
      var i :| 0 <= i < k && pool[i] == q;
      assert i != k - 1;
      assert pool[..k - 1][i] == q;
    }
  }

  /** When the board has room for every mine outside the targets, none is left on a target. */
  lemma ClearedWhenRoom(board: Board, targets: set<Coord>, pool: seq<Coord>, r: Board, k: int)
    requires targets <= board.Keys
    requires ClearInv(board, targets, pool, r, k, targets)
    ensures |Mines(board)| <= |board.Keys - targets| ==> Mines(r) * targets == {}
  {
    if |Mines(board)| <= |board.Keys - targets| && Mines(r) * targets != {} {
      var t :| t in Mines(r) * targets;
      assert (board.Keys - targets) + {t} <= Mines(r);
      SubsetCard((board.Keys - targets) + {t}, Mines(r));
    }
  }

  /** Moving a mine from `t` to an empty cell `p` keeps the number of mines. */
  lemma MoveMine(board: Board, t: Coord, p: Coord)
    requires t in board && p in board && board[t].mine && !board[p].mine
    ensures var b := board[p := board[p].(mine := true)][t := board[t].(mine := false)];
            Mines(b) == Mines(board) - {t} + {p} && |Mines(b)| == |Mines(board)|
  {
    var b := board[p := board[p].(mine := true)][t := board[t].(mine := false)];
    var m, m' := Mines(board), Mines(b);
    forall q ensures q in m' <==> q in m - {t} + {p} {
      if q in board {
        assert b[q].mine == if q == t then false else if q == p then true else board[q].mine;
      }
    }
    assert m' == m - {t} + {p};
    assert |m - {t}| == |m| - 1;
  }

  /** The cells the first click clears: the clicked cell, and its neighbours when the board is
      set to clear them. */
  function FirstClickTargets(board: Board, c: Coord, clearNeighbors: bool): set<Coord> {
    if clearNeighbors then NeighborsIn(board, c) + {c} else {c}
  }

  /** Game.reconfigure_board: clear the first click's cells of mines and recount the numbers. */
  method Reconfigure(g: Game, c: Coord, clearNeighbors: bool, pool: seq<Coord>) returns (r: Game)
    requires c in g.board
    requires forall p :: p in pool <==> p in g.board
    ensures r == g.(board := r.board, numbers := r.numbers)
    ensures r.board.Keys == g.board.Keys
    ensures forall p | p in r.board :: r.board[p] == g.board[p].(mine := r.board[p].mine)
    ensures |Mines(r.board)| == |Mines(g.board)| && Flags(r.board) == Flags(g.board)
    ensures NumbersAccurate(r)
    ensures var targets := FirstClickTargets(g.board, c, clearNeighbors);
            && Mines(r.board) * targets <= Mines(g.board) * targets
            && Mines(g.board) - targets <= Mines(r.board)
    ensures var targets := FirstClickTargets(g.board, c, clearNeighbors);
            |Mines(g.board)| <= |g.board.Keys - targets| ==> Mines(r.board) * targets == {}
  {
    var targets := FirstClickTargets(g.board, c, clearNeighbors);
    var b := ClearCells(g.board, targets, pool);
    SameFlags(g.board, b);
    r := g.(board := b, numbers := DetermineNumbers(b, g.numbers));
  }

  /** Button 1 of Game.handle_click: before anything is revealed the board is reconfigured
      around the cell, then the cell is clicked. That first click never loses when the mines
      fit outside the cleared cells. */
  method LeftClick(g: Game, c: Coord, clearNeighbors: bool, pool: seq<Coord>) returns (r: Game)
    requires c in g.board
    requires forall p :: p in pool <==> p in g.board
    ensures r.board.Keys == g.board.Keys
    ensures r.minesLeft == g.minesLeft && Flags(r.board) == Flags(g.board)
    ensures |Mines(r.board)| == |Mines(g.board)|
    ensures NumbersAccurate(g) || !g.hasRevealed ==> NumbersAccurate(r)
    ensures !g.board[c].flagged ==> r.board[c].revealed
    ensures g.hasRevealed ==> SameLayout(g.board, r.board) && RevealedGrows(g.board, r.board)
    ensures g.hasRevealed && (g.board[c].revealed || g.board[c].flagged) ==> r == g
    ensures g.hasRevealed ==> (r.lost <==> g.lost || Detonates(g.board, c))
    ensures !g.hasRevealed && !g.lost && !g.board[c].flagged
            && |Mines(g.board)| <= |g.board.Keys - FirstClickTargets(g.board, c, clearNeighbors)| ==>
              !r.lost && r.board[c].revealed && !r.board[c].mine
  {
    r := g;
    if !g.hasRevealed {
      r := Reconfigure(g, c, clearNeighbors, pool);
      assert c in FirstClickTargets(g.board, c, clearNeighbors);
      assert c in r.board && r.board[c].flagged == g.board[c].flagged;
    }
    var before := r;
    r := CellClick(before, c);
    SameFlags(before.board, r.board);
    SameMines(before.board, r.board);
    AccurateAfterClick(before, r);
  }

  /** What a left click on `c` is known to do (the contract of `LeftClick`). */
  ghost predicate LeftClicked(g: Game, c: Coord, clearNeighbors: bool, r: Game)
    requires c in g.board
  {
    && r.board.Keys == g.board.Keys
    && r.minesLeft == g.minesLeft && Flags(r.board) == Flags(g.board)
    && |Mines(r.board)| == |Mines(g.board)|
    && (!g.board[c].flagged ==> r.board[c].revealed)
    && (g.hasRevealed ==> SameLayout(g.board, r.board) && RevealedGrows(g.board, r.board))
    && (g.hasRevealed && (g.board[c].revealed || g.board[c].flagged) ==> r == g)
    && (g.hasRevealed ==> (r.lost <==> g.lost || Detonates(g.board, c)))
    && (!g.hasRevealed && !g.lost && !g.board[c].flagged
        && |Mines(g.board)| <= |g.board.Keys - FirstClickTargets(g.board, c, clearNeighbors)| ==>
          !r.lost && r.board[c].revealed && !r.board[c].mine)
  }

  /** What a middle click on `c` is known to do (the contract of `MiddleClick`). */
  ghost predicate Chorded(g: Game, c: Coord, r: Game)
    requires c in g.board
  {
    && SameLayout(g.board, r.board) && RevealedGrows(g.board, r.board)
    && r == g.(board := r.board, lost := r.lost, inPlay := r.inPlay, gameOver := r.gameOver,
               hasRevealed := r.hasRevealed)
    && (!Chords(g, c) ==> r == g)
    && (Chords(g, c) ==> forall n | n in ChordTargets(g.board, c) :: r.board[n].revealed)
    && (forall p | p in r.board && r.board[p].revealed && !g.board[p].revealed ::
          !g.board[p].flagged && (g.board[p].mine ==> p in ChordTargets(g.board, c)))
    && (r.lost <==> g.lost || (Chords(g, c) && ChordTargets(g.board, c) * Mines(g.board) != {}))
  }

  /** Game.handle_click. Button 1 left-clicks, button 2 chords, button 3 toggles the flag, and
      any other button (a director's mark) does nothing. Every button keeps the mines left plus
      the flags placed, and the number of mines. */
  method HandleClick(g: Game, button: int, c: Coord, clearNeighbors: bool, pool: seq<Coord>)
    returns (r: Game)
    requires c in g.board
    requires forall p :: p in pool <==> p in g.board
    ensures button !in {1, 2, 3} ==> r == g
    ensures button == 1 ==> LeftClicked(g, c, clearNeighbors, r)
    ensures button == 2 ==> Chorded(g, c, r)
    ensures button == 3 ==> r == RightClick(g, c)
    ensures r.board.Keys == g.board.Keys
    ensures r.minesLeft + |Flags(r.board)| == g.minesLeft + |Flags(g.board)|
    ensures |Mines(r.board)| == |Mines(g.board)|
    ensures NumbersAccurate(g) ==> NumbersAccurate(r)
  {
    r := g;
    if button == 1 {
      r := LeftClick(g, c, clearNeighbors, pool);
    } else if button == 2 {
      r := MiddleClick(g, c);
    } else if button == 3 {
      r := RightClick(g, c);
      RightClickKeepsMines(g, c);
    }
  }

  lemma SameFlags(a: Board, b: Board)
    requires a.Keys == b.Keys && forall p | p in a :: b[p].flagged == a[p].flagged
    ensures Flags(a) == Flags(b)
  {
  }

  lemma SameMines(a: Board, b: Board)
    requires a.Keys == b.Keys && forall p | p in a :: b[p].mine == a[p].mine
    ensures Mines(a) == Mines(b)
  {
  }

  /** A click that moves no mine keeps the cached numbers right. */
  lemma AccurateAfterClick(g: Game, r: Game)
    requires g.board.Keys == r.board.Keys && forall p | p in g.board :: r.board[p].mine == g.board[p].mine
    requires r.numbers == g.numbers
    ensures NumbersAccurate(g) ==> NumbersAccurate(r)
  {
    if NumbersAccurate(g) {
      forall p | p in r.board && !r.board[p].mine ensures MineCount(r.board, p) == MineCount(g.board, p) {
        assert NeighborsIn(r.board, p) == NeighborsIn(g.board, p);
        assert (set q | q in NeighborsIn(r.board, p) && r.board[q].mine)
            == (set q | q in NeighborsIn(g.board, p) && g.board[q].mine);
      }
    }
  }

  // ---------------------------------------------------------------------------------------
  // Winning

  /** Every cell is either a mine or revealed. */
  predicate DidWin(board: Board) {
    forall p | p in board :: board[p].mine || board[p].revealed
  }

  /** The board is won exactly when no safe cell is still hidden. */
  lemma DidWinIffNoHiddenSafe(board: Board)
    ensures DidWin(board) <==> HiddenSafe(board) == {}
  {
    if !DidWin(board) {
      var p :| p in board && !board[p].mine && !board[p].revealed;
      assert p in HiddenSafe(board);
    }
  }

  /** Game.check_winning_state: a game in play whose board is won becomes won and over. */
  function CheckWinningState(g: Game): (r: Game)
    ensures r.won <==> g.won || (g.inPlay && DidWin(g.board))
    ensures r.inPlay <==> g.inPlay && !DidWin(g.board)
    ensures r.board == g.board && r.lost == g.lost
  {
    if g.inPlay && DidWin(g.board) then g.(won := true, inPlay := false, gameOver := true) else g
  }
}
