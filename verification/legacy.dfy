/** The older single-file game (minesweeper.py): the same cells as the playable board, but
    the flood around an empty cell is a recursion over each cell's neighbour list, chording
    works on any cell that has a number, and a first click moves at most the one mine under it. */
module Legacy {
  import opened Common
  import opened Grid
  import opened GameCell
  import opened GameBoard

  /** The legacy game's state: the cells, their cached numbers (a mine that never had one is
      missing), the mine counter, and the flags set when the game is lost. */
  datatype LegacyGame = LegacyGame(
    board: Board, numbers: map<Coord, int>,
    minesLeft: int, lost: bool, hasRevealed: bool, gameOver: bool)

  // ---------------------------------------------------------------------------------------
  // Neighbour lists

  /** The positions of `ps` the board holds, in order. */
  function {:induction false} Present(board: Board, ps: seq<Coord>): (r: seq<Coord>)
    ensures forall p :: p in r <==> p in ps && p in board
    decreases |ps|
  {
    if ps == [] then []
    else (if ps[0] in board then [ps[0]] else []) + Present(board, ps[1..])
  }

  /** Cell.neighbors: the eight offsets looked up in a fixed order, missing cells dropped. */
  function NeighborList(board: Board, c: Coord): (r: seq<Coord>)
    ensures forall p :: p in r <==> p in board && Adjacent(c, p)
  {
    var (x, y) := c;
    Present(board, [(x - 1, y - 1), (x, y - 1), (x + 1, y - 1), (x + 1, y),
                    (x + 1, y + 1), (x, y + 1), (x - 1, y + 1), (x - 1, y)])
  }

  /** A safe cell neither revealed nor flagged. */
  predicate Unopened(board: Board, p: Coord)
    requires p in board
  {
    !board[p].mine && !board[p].revealed && !board[p].flagged
  }

  /** The cells of `ps` that are unopened, in order. */
  function {:induction false} SelectUnopened(board: Board, ps: seq<Coord>): (r: seq<Coord>)
    requires forall p | p in ps :: p in board
    ensures forall p :: p in r <==> p in ps && Unopened(board, p)
    decreases |ps|
  {
    if ps == [] then []
    else (if Unopened(board, ps[0]) then [ps[0]] else []) + SelectUnopened(board, ps[1..])
  }

  /** The list cascade_empty walks for `z`: its unopened neighbours, in neighbour order. */
  function Friendlies(board: Board, z: Coord): (r: seq<Coord>)
    ensures forall p :: p in r <==> p in board && Adjacent(z, p) && Unopened(board, p)
  {
    SelectUnopened(board, NeighborList(board, z))
  }

  // ---------------------------------------------------------------------------------------
  // The recursive flood

  /** `b` becomes `r` by revealing safe unflagged cells only. */
  ghost predicate Grows(b: Board, r: Board) {
    && b.Keys == r.Keys
    && forall p | p in b ::
         && r[p] == b[p].(revealed := r[p].revealed)
         && (b[p].revealed ==> r[p].revealed)
         && (r[p].revealed && !b[p].revealed ==> !b[p].mine && !b[p].flagged)
  }

  /** Every empty cell revealed on the way from `b` to `r` has its area opened in `r`. */
  ghost predicate ZerosOpened(b: Board, r: Board, numbers: map<Coord, int>)
    requires b.Keys == r.Keys
  {
    forall p | p in r && r[p].revealed && !b[p].revealed && IsZero(numbers, p) :: Opened(r, p)
  }

  /** Cell.cascade_empty: reveal every unopened neighbour of `z`, recursing into those that
      are empty. It terminates because each call starts with fewer hidden safe cells than
      the call that made it. On return `z`'s area is open, only safe unflagged cells were
      revealed, and every empty cell it revealed has its own area open. */
  function Flood(b: Board, numbers: map<Coord, int>, z: Coord): (r: Board)
    requires z in b
    ensures Grows(b, r)
    ensures Opened(r, z)
    ensures ZerosOpened(b, r, numbers)
    decreases |HiddenSafe(b)|, 1
  {
    var list := Friendlies(b, z);
    var r := FloodEach(b, numbers, list, 0, |HiddenSafe(b)|);
    FloodOpens(b, r, z, list);
    r
  }

  /** The loop of cascade_empty from position `i` of its list; `bound` is the hidden-safe
      count the enclosing call started with, which every recursive call stays below. */
  function FloodEach(b: Board, numbers: map<Coord, int>, list: seq<Coord>, i: nat, bound: nat): (r: Board)
    requires forall p | p in list :: p in b && !b[p].mine && !b[p].flagged
    requires i <= |list|
    requires i == 0 ==> |HiddenSafe(b)| <= bound && (|list| > 0 ==> !b[list[0]].revealed)
    requires i > 0 ==> |HiddenSafe(b)| < bound
    ensures Grows(b, r)
    ensures ZerosOpened(b, r, numbers)
    ensures forall j | i <= j < |list| :: r[list[j]].revealed
    decreases bound, 0, |list| - i
  {
    if i == |list| then
      NothingGrows(b);
      b
    else
      var c := list[i];
      var b1 := b[c := b[c].(revealed := true)];
      RevealOne(b, c);
      var b2 := if IsZero(numbers, c) then Flood(b1, numbers, c) else b1;
      NothingGrows(b1);
      GrowsHidden(b1, b2);
      var r := FloodEach(b2, numbers, list, i + 1, bound);
      FloodEachStep(b, b1, b2, r, numbers, list, i);
      r
  }

  lemma NothingGrows(b: Board)
    ensures Grows(b, b)
  {
  }

  /** Revealing one unflagged safe cell is growth and never adds hidden safe cells; revealing
      a hidden one removes one. */
  lemma RevealOne(b: Board, c: Coord)
    requires c in b && !b[c].mine && !b[c].flagged
    ensures Grows(b, b[c := b[c].(revealed := true)])
    ensures HiddenSafe(b[c := b[c].(revealed := true)]) <= HiddenSafe(b)
    ensures |HiddenSafe(b[c := b[c].(revealed := true)])| <= |HiddenSafe(b)|
    ensures !b[c].revealed ==> |HiddenSafe(b[c := b[c].(revealed := true)])| < |HiddenSafe(b)|
  {
    var b1 := b[c := b[c].(revealed := true)];
    assert HiddenSafe(b1) == HiddenSafe(b) - {c} by {
      forall p ensures p in HiddenSafe(b1) <==> p in HiddenSafe(b) && p != c {
        if p != c && p in b {
          assert b1[p] == b[p];
        }
      }
    }
    if !b[c].revealed {
      DifferenceCard(HiddenSafe(b), {c});
    } else {
      assert HiddenSafe(b) - {c} == HiddenSafe(b);
    }
  }

  lemma GrowsHidden(b: Board, r: Board)
    requires Grows(b, r)
    ensures HiddenSafe(r) <= HiddenSafe(b)
    ensures |HiddenSafe(r)| <= |HiddenSafe(b)|
  {
    SubsetCard(HiddenSafe(r), HiddenSafe(b));
  }

  lemma GrowsTrans(a: Board, b: Board, c: Board)
    requires Grows(a, b) && Grows(b, c)
    ensures Grows(a, c)
  {
  }

  /** An opened area stays open as more cells are revealed. */
  lemma OpenedGrows(b: Board, r: Board, z: Coord)
    requires Grows(b, r) && Opened(b, z)
    ensures Opened(r, z)
  {
    forall n | n in NeighborsIn(r, z) && !r[n].mine && !r[n].flagged ensures r[n].revealed {
      assert n in NeighborsIn(b, z);
    }
  }

  lemma ZerosOpenedTrans(a: Board, b: Board, c: Board, numbers: map<Coord, int>)
    requires Grows(a, b) && Grows(b, c)
    requires ZerosOpened(a, b, numbers) && ZerosOpened(b, c, numbers)
    ensures ZerosOpened(a, c, numbers)
  {
    forall p | p in c && c[p].revealed && !a[p].revealed && IsZero(numbers, p) ensures Opened(c, p) {
      if !b[p].revealed {
        assert Opened(c, p);
      } else {
        OpenedGrows(b, c, p);
      }
    }
  }

  lemma FloodEachStep(b: Board, b1: Board, b2: Board, r: Board, numbers: map<Coord, int>,
                      list: seq<Coord>, i: nat)
    requires forall p | p in list :: p in b
    requires i < |list| && !b[list[i]].mine && !b[list[i]].flagged
    requires b1 == b[list[i] := b[list[i]].(revealed := true)]
    requires IsZero(numbers, list[i]) ==> Opened(b2, list[i])
    requires Grows(b1, b2) && ZerosOpened(b1, b2, numbers)
    requires Grows(b2, r) && ZerosOpened(b2, r, numbers)
    requires forall j | i + 1 <= j < |list| :: r[list[j]].revealed
    ensures Grows(b, r)
    ensures ZerosOpened(b, r, numbers)
    ensures forall j | i <= j < |list| :: r[list[j]].revealed
  {
    var c := list[i];
    RevealOne(b, c);
    GrowsTrans(b, b1, b2);
    GrowsTrans(b, b2, r);
    ZerosOpenedStep(b, b1, b2, r, numbers, c);
  }

  lemma ZerosOpenedStep(b: Board, b1: Board, b2: Board, r: Board, numbers: map<Coord, int>, c: Coord)
    requires c in b && b1 == b[c := b[c].(revealed := true)]
    requires Grows(b, b1) && Grows(b1, b2) && Grows(b2, r)
    requires IsZero(numbers, c) ==> Opened(b2, c)
    requires ZerosOpened(b1, b2, numbers) && ZerosOpened(b2, r, numbers)
    ensures ZerosOpened(b, r, numbers)
  {
    GrowsTrans(b1, b2, r);
    ZerosOpenedTrans(b1, b2, r, numbers);
    forall p | p in r && r[p].revealed && !b[p].revealed && IsZero(numbers, p) ensures Opened(r, p) {
      if p == c {
        OpenedGrows(b2, r, c);
      }
    }
  }

  lemma FloodOpens(b: Board, r: Board, z: Coord, list: seq<Coord>)
    requires z in b && list == Friendlies(b, z)
    requires Grows(b, r)
    requires forall j | 0 <= j < |list| :: r[list[j]].revealed
    ensures Opened(r, z)
  {
    forall n | n in NeighborsIn(r, z) && !r[n].mine && !r[n].flagged ensures r[n].revealed {
      if !b[n].revealed {
        assert n in list;
      }
    }
  }

  // ---------------------------------------------------------------------------------------
  // Clicks

  /** Cell.handle_click: a revealed or flagged cell ignores the click; otherwise the cell is
      revealed, a mine becomes the losing mine and loses the game, and an empty cell floods. */
  function Click(g: LegacyGame, c: Coord): (r: LegacyGame)
    requires c in g.board
    ensures r.board.Keys == g.board.Keys
    ensures g.board[c].revealed || g.board[c].flagged ==> r == g
    ensures Detonates(g.board, c) ==>
              r == g.(board := g.board[c := g.board[c].(revealed := true, losing := true)],
                      lost := true, hasRevealed := true, gameOver := true)
    ensures Unopened(g.board, c) ==>
              && r == g.(board := r.board, hasRevealed := true)
              && Grows(g.board, r.board) && r.board[c].revealed
              && ZerosOpened(g.board, r.board, g.numbers)
              && (IsZero(g.numbers, c) ==> Opened(r.board, c))
  {
    var cell := g.board[c];
    if cell.revealed || cell.flagged then g
    else
      var b1 := g.board[c := cell.(revealed := true)];
      if cell.mine then
        g.(board := g.board[c := cell.(revealed := true, losing := true)],
           lost := true, hasRevealed := true, gameOver := true)
      else
        RevealOne(g.board, c);
        var b2 := if IsZero(g.numbers, c) then Flood(b1, g.numbers, c) else b1;
        NothingGrows(b1);
        GrowsTrans(g.board, b1, b2);
        ZerosOpenedStep(g.board, b1, b2, b2, g.numbers, c);
        g.(board := b2, hasRevealed := true)
  }

  /** A click that does not explode keeps the mines and flags where they are and leaves the
      game unlost if it was; only the clicked cell can be a revealed mine afterwards. */
  lemma ClickKeepsLayout(g: LegacyGame, c: Coord)
    requires c in g.board
    ensures SameLayout(g.board, Click(g, c).board)
    ensures Click(g, c).lost <==> g.lost || Detonates(g.board, c)
    ensures forall p | p in g.board && p != c && Click(g, c).board[p].revealed && !g.board[p].revealed ::
              !g.board[p].mine
  {
  }

  /** Cell.handle_rightclick with the game's counter: toggle the flag of a cell that is not
      revealed, and count the mines left the other way. */
  function RightClick(g: LegacyGame, c: Coord): (r: LegacyGame)
    requires c in g.board
    ensures g.board[c].revealed ==> r == g
    ensures !g.board[c].revealed ==>
              r == g.(board := g.board[c := g.board[c].(flagged := !g.board[c].flagged)],
                      minesLeft := r.minesLeft)
    ensures r.minesLeft + |Flags(r.board)| == g.minesLeft + |Flags(g.board)|
  {
    var cell := g.board[c];
    if cell.revealed then g
    else
      FlagToggleCount(g.board, c);
      g.(board := g.board[c := cell.(flagged := !cell.flagged)],
         minesLeft := if cell.flagged then g.minesLeft + 1 else g.minesLeft - 1)
  }

  /** Cell.handle_middleclick: a cell with a number whose flagged neighbours match it clicks
      each neighbour that was neither flagged nor revealed when the chord began. The cell
      itself need not be revealed. */
  function MiddleClick(g: LegacyGame, c: Coord): (r: LegacyGame)
    requires c in g.board
    ensures !Chords(g, c) ==> r == g
    ensures SameLayout(g.board, r.board)
    ensures r.lost <==> g.lost || (Chords(g, c) && exists t | t in ChordList(g.board, c) :: g.board[t].mine)
  {
    if !Chords(g, c) then g
    else ChordEach(g, ChordList(g.board, c), 0)
  }

  /** The chord condition: the cell has a number and that many flagged neighbours. */
  predicate Chords(g: LegacyGame, c: Coord)
    requires c in g.board
  {
    c in g.numbers && |FlaggedList(g.board, NeighborList(g.board, c))| == g.numbers[c]
  }

  /** The flagged cells of `ps`, in order. */
  function {:induction false} FlaggedList(board: Board, ps: seq<Coord>): (r: seq<Coord>)
    requires forall p | p in ps :: p in board
    ensures forall p :: p in r <==> p in ps && board[p].flagged
    decreases |ps|
  {
    if ps == [] then []
    else (if board[ps[0]].flagged then [ps[0]] else []) + FlaggedList(board, ps[1..])
  }

  /** The neighbours a chord clicks: neither flagged nor revealed, in neighbour order. */
  function {:induction false} ChordList(board: Board, c: Coord): (r: seq<Coord>)
    requires c in board
    ensures forall p :: p in r <==> p in board && Adjacent(c, p) && !board[p].flagged && !board[p].revealed
  {
    HiddenUnflagged(board, NeighborList(board, c))
  }

  function {:induction false} HiddenUnflagged(board: Board, ps: seq<Coord>): (r: seq<Coord>)
    requires forall p | p in ps :: p in board
    ensures forall p :: p in r <==> p in ps && !board[p].flagged && !board[p].revealed
    decreases |ps|
  {
    if ps == [] then []
    else (if !board[ps[0]].flagged && !board[ps[0]].revealed then [ps[0]] else []) + HiddenUnflagged(board, ps[1..])
  }

  /** Clicking the cells of `list` from position `i` on, each on the board as the previous
      clicks left it. A click never moves mines or flags, so every mine in the list is still
      hidden and unflagged when its turn comes, and it loses the game. */
  function {:induction false} ChordEach(g: LegacyGame, list: seq<Coord>, i: nat): (r: LegacyGame)
    requires forall p | p in list :: p in g.board && !g.board[p].flagged
    requires i <= |list|
    requires forall j | i <= j < |list| && g.board[list[j]].mine :: !g.board[list[j]].revealed || g.lost
    ensures SameLayout(g.board, r.board)
    ensures r.lost <==> g.lost || exists j | i <= j < |list| :: g.board[list[j]].mine
    decreases |list| - i
  {
    if i == |list| then g
    else
      var next := Click(g, list[i]);
      ClickKeepsLayout(g, list[i]);
      var r := ChordEach(next, list, i + 1);
      r
  }

  // ---------------------------------------------------------------------------------------
  // The first click and the sprites

  /** Where the reconfiguring loop stops: it pops cells from the end of the shuffled `pool`
      and settles on the first one that is neither the clicked cell nor a mine. */
  function {:induction false} LastFree(board: Board, pool: seq<Coord>, c: Coord): (r: Option<nat>)
    requires forall p | p in pool :: p in board
    ensures r.None? <==> forall j | 0 <= j < |pool| :: pool[j] == c || board[pool[j]].mine
    ensures r.Some? ==>
              && r.value < |pool| && pool[r.value] != c && !board[pool[r.value]].mine
              && forall j | r.value < j < |pool| :: pool[j] == c || board[pool[j]].mine
    decreases |pool|
  {
    if pool == [] then None
    else
      var last := pool[|pool| - 1];
      if last != c && !board[last].mine then Some(|pool| - 1)
      else
        var r := LastFree(board, pool[..|pool| - 1], c);
        assert forall j | 0 <= j < |pool| - 1 :: pool[..|pool| - 1][j] == pool[j];
        r
  }

  /** Game.reconfigure_board: move the mine from `c` to the cell the loop settles on, if there
      is one, and recount the numbers. With a free cell the mine count is unchanged and `c`
      is safe; without one the board is as it was. */
  function Reconfigure(g: LegacyGame, c: Coord, pool: seq<Coord>): (r: LegacyGame)
    requires c in g.board && g.board[c].mine
    requires forall p :: p in pool <==> p in g.board
    ensures r.board.Keys == g.board.Keys
    ensures |Mines(r.board)| == |Mines(g.board)|
    ensures (exists p | p in g.board :: p != c && !g.board[p].mine) ==> !r.board[c].mine
    ensures forall p | p in r.board :: r.board[p] == g.board[p].(mine := r.board[p].mine)
    ensures r.numbers == DetermineNumbers(r.board, g.numbers)
  {
    match LastFree(g.board, pool, c)
    case None => g.(numbers := DetermineNumbers(g.board, g.numbers))
    case Some(k) =>
      var p := pool[k];
      var b := MovedMine(g.board, c, p);
      g.(board := b, numbers := DetermineNumbers(b, g.numbers))
  }

  /** The board with the mine on `t` moved to the safe cell `p`. */
  function MovedMine(board: Board, t: Coord, p: Coord): (b: Board)
    requires t in board && p in board && board[t].mine && !board[p].mine
    ensures b.Keys == board.Keys
    ensures |Mines(b)| == |Mines(board)|
    ensures !b[t].mine && b[p].mine
    ensures forall q | q in b :: b[q] == board[q].(mine := b[q].mine)
    ensures forall q | q in b && q != t && q != p :: b[q] == board[q]
  {
    var b := map q | q in board :: board[q].(mine := if q == t then false else if q == p then true else board[q].mine);
    assert Mines(b) == Mines(board) - {t} + {p};
    assert |Mines(board) - {t}| == |Mines(board)| - 1;
    b
  }

  /** Game.handle_click with button 1: the first click on a mine moves the mine first. */
  function LeftClick(g: LegacyGame, c: Coord, pool: seq<Coord>): (r: LegacyGame)
    requires c in g.board
    requires forall p :: p in pool <==> p in g.board
    ensures r.board.Keys == g.board.Keys
    ensures |Mines(r.board)| == |Mines(g.board)|
    ensures !g.hasRevealed && !g.lost && !g.board[c].flagged
            && (exists p | p in g.board :: p != c && !g.board[p].mine) ==>
              !r.lost && r.board[c].revealed && !r.board[c].mine
  {
    var h := if !g.hasRevealed && g.board[c].mine then Reconfigure(g, c, pool) else g;
    ClickKeepsLayout(h, c);
    SameMines(h.board, Click(h, c).board);
    Click(h, c)
  }

  /** Cell._determine_sprite of the legacy game. It tests for a mine after game over before it
      tests for a flag. */
  function LegacySprite(c: CellState, number: Option<int>, gameOver: bool): Sprite {
    if c.revealed then
      if c.mine then (if c.losing then MineLosing else MineShown)
      else if number.Some? && number.value != 0 then NumberSprite(number.value)
      else EmptySprite
    else if gameOver && c.mine then MineUnrevealed
    else if c.flagged then
      if c.mine || !gameOver then FlagSprite else FlagWrong
    else UnrevealedSprite
  }

  /** The legacy sprites differ from the playable board's exactly on a correctly flagged mine
      after the game is over, which the legacy game draws as an unrevealed mine. */
  lemma SpritesDiffer(c: CellState, number: Option<int>, gameOver: bool)
    ensures LegacySprite(c, number, gameOver) != SpriteOf(c, number, gameOver)
            <==> !c.revealed && c.flagged && c.mine && gameOver
    ensures !c.revealed && c.flagged && c.mine && gameOver ==>
              LegacySprite(c, number, gameOver) == MineUnrevealed && SpriteOf(c, number, gameOver) == FlagSprite
  {
  }
}
