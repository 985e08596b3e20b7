/** The save format of a board (minesweeper/game.py, Game.serialize and Game.deserialize): one
    line per row, one character per cell, rows separated by newlines. Loading stops at the first
    blank line, so anything after one is a comment. */
module GameText {
  import opened Common
  import opened Grid
  import opened GameCell
  import opened GameBoard

  datatype LoadError =
    | NoRows       // nothing before the first blank line
    | RaggedRows   // the rows do not all have the first row's length

  // ---------------------------------------------------------------------------------------
  // Lines

  /** Splitting at every newline; the pieces hold no newline and there is always one. */
  function {:induction false} Split(s: string): (r: seq<string>)
    ensures |r| >= 1
    ensures forall i | 0 <= i < |r| :: '\n' !in r[i]
    decreases |s|
  {
    if s == [] then [[]]
    else
      var rest := Split(s[1..]);
      if s[0] == '\n' then [[]] + rest
      else [[s[0]] + rest[0]] + rest[1..]
  }

  /** Joining rows with newlines. */
  function Join(rows: seq<string>): string
    requires |rows| >= 1
    decreases |rows|
  {
    if |rows| == 1 then rows[0] else rows[0] + "\n" + Join(rows[1..])
  }

  lemma {:induction false} SplitPrefix(a: string, t: string)
    requires '\n' !in a
    ensures Split(a + t) == [a + Split(t)[0]] + Split(t)[1..]
    decreases |a|
  {
    if a != [] {
      assert (a + t)[1..] == a[1..] + t;
      SplitPrefix(a[1..], t);
      assert [a[0]] + (a[1..] + Split(t)[0]) == a + Split(t)[0];
    } else {
      assert a + t == t && a + Split(t)[0] == Split(t)[0];
      assert Split(t) == [Split(t)[0]] + Split(t)[1..];
    }
  }

  /** Splitting undoes joining when no row holds a newline. */
  lemma {:induction false} SplitJoin(rows: seq<string>)
    requires |rows| >= 1
    requires forall i | 0 <= i < |rows| :: '\n' !in rows[i]
    ensures Split(Join(rows)) == rows
    decreases |rows|
  {
    if |rows| == 1 {
      SplitPrefix(rows[0], []);
      assert Split([]) == [[]];
      assert rows[0] + [] == rows[0];
    } else {
      var rest := Join(rows[1..]);
      SplitJoin(rows[1..]);
      assert rows[0] + "\n" + rest == rows[0] + ("\n" + rest);
      SplitPrefix(rows[0], "\n" + rest);
      assert ("\n" + rest)[1..] == rest;
      assert Split("\n" + rest) == [[]] + rows[1..];
      assert rows[0] + [] == rows[0];
      assert [rows[0]] + rows[1..] == rows;
    }
  }

  /** The whitespace a line loses at its end (the ASCII part of Python's whitespace). */
  predicate IsSpace(ch: char) {
    ch in " \t\n\r\U{0B}\U{0C}\U{1C}\U{1D}\U{1E}\U{1F}"
  }

  /** A line without its trailing whitespace. */
  function {:induction false} RStrip(s: string): (r: string)
    ensures |r| <= |s| && r == s[..|r|]
    ensures r == [] || !IsSpace(r[|r| - 1])
    ensures forall i | |r| <= i < |s| :: IsSpace(s[i])
    decreases |s|
  {
    if s != [] && IsSpace(s[|s| - 1]) then
      var r := RStrip(s[..|s| - 1]);
      assert forall i | |r| <= i < |s| - 1 :: s[..|s| - 1][i] == s[i];
      r
    else s
  }

  /** The lines before the first blank one, each without trailing whitespace. */
  function {:induction false} Rows(lines: seq<string>): (r: seq<string>)
    ensures |r| <= |lines|
    ensures forall i | 0 <= i < |r| :: r[i] == RStrip(lines[i]) && r[i] != []
    ensures |r| < |lines| ==> RStrip(lines[|r|]) == []
    decreases |lines|
  {
    if lines == [] then []
    else
      var l := RStrip(lines[0]);
      if l == [] then []
      else
        var rest := Rows(lines[1..]);
        assert forall i | 1 <= i < |lines| :: lines[i] == lines[1..][i - 1];
        [l] + rest
  }

  // ---------------------------------------------------------------------------------------
  // Saving

  /** The cells of row `y`, left to right. */
  function RowText(board: Board, w: nat, y: int): (r: string)
    requires forall x | 0 <= x < w :: (x, y) in board
    ensures |r| == w && forall x | 0 <= x < w :: r[x] == CellChar(board[(x, y)])
  {
    seq(w, x requires 0 <= x < w => CellChar(board[(x, y)]))
  }

  /** The board is exactly the grid of its width and height. */
  ghost predicate Rectangular(g: Game) {
    g.width >= 1 && g.height >= 1 && g.board.Keys == Coords(g.width, g.height)
  }

  function Lines(g: Game): (r: seq<string>)
    requires Rectangular(g)
    ensures |r| == g.height
    ensures forall y | 0 <= y < g.height :: r[y] == RowText(g.board, g.width, y)
  {
    forall x, y | 0 <= x < g.width && 0 <= y < g.height ensures (x, y) in g.board {
      CoordsMembership(g.width, g.height, (x, y));
    }
    seq(g.height, y requires 0 <= y < g.height => RowText(g.board, g.width, y))
  }

  /** Game.serialize: the rows, top to bottom, joined by newlines. */
  function Serialize(g: Game): string
    requires Rectangular(g)
  {
    Join(Lines(g))
  }

  // ---------------------------------------------------------------------------------------
  // Loading

  /** The cell a save character loads as; with `unrevealed` only mines are kept. */
  function LoadCell(ch: char, unrevealed: bool): (c: CellState)
    ensures c.mine == CellFromChar(ch).mine
    ensures unrevealed ==> c == Fresh.(mine := c.mine)
    ensures !unrevealed ==> c == CellFromChar(ch)
  {
    var c := CellFromChar(ch);
    if unrevealed then c.(revealed := false, losing := false, flagged := false) else c
  }

  /** The mines that are neither revealed nor flagged. */
  function HiddenMines(board: Board): set<Coord> {
    set p | p in board && board[p].mine && !(board[p].revealed || board[p].flagged)
  }

  /** Every row has the first row's length. */
  predicate SameWidth(rows: seq<string>)
    requires rows != []
  {
    forall i | 0 <= i < |rows| :: |rows[i]| == |rows[0]|
  }

  /** The cells of a grid of rows, each loaded from its character. */
  function LoadBoard(rows: seq<string>, unrevealed: bool): (b: Board)
    requires rows != [] && SameWidth(rows)
    ensures b.Keys == Coords(|rows[0]|, |rows|)
    ensures forall p | p in b :: 0 <= p.1 < |rows| && 0 <= p.0 < |rows[p.1]| && b[p] == LoadCell(rows[p.1][p.0], unrevealed)
  {
    map p | p in Coords(|rows[0]|, |rows|) :: LoadCell(rows[p.1][p.0], unrevealed)
  }

  /** A freshly loaded game over `board`: lost when a losing mine was loaded, the mines left
      are the mines neither revealed nor flagged, and the numbers are recounted. */
  function LoadedGame(w: int, h: int, board: Board): (g: Game)
    ensures g.width == w && g.height == h && g.board == board
    ensures g.minesLeft == |HiddenMines(board)|
    ensures NumbersAccurate(g)
    ensures g.lost <==> exists p | p in board :: board[p].losing
    ensures g.inPlay == !g.lost && g.gameOver == g.lost && !g.won
  {
    var lost := exists p | p in board :: board[p].losing;
    var hasRevealed := exists p | p in board :: board[p].revealed;
    Game(w, h, board, DetermineNumbers(board, map[]), |HiddenMines(board)|, lost, false, !lost, hasRevealed, lost)
  }

  /** Game.deserialize: read the rows before the first blank line into a fresh board of their
      size. No rows, or rows of different lengths, are errors. */
  function Deserialize(s: string, unrevealed: bool): (r: Result<Game, LoadError>)
    ensures r == Err(NoRows) <==> Rows(Split(s)) == []
    ensures r == Err(RaggedRows) <==> Rows(Split(s)) != [] && !SameWidth(Rows(Split(s)))
    ensures r.Ok? ==>
              var rows := Rows(Split(s));
              && rows != [] && SameWidth(rows)
              && r.value == LoadedGame(|rows[0]|, |rows|, LoadBoard(rows, unrevealed))
  {
    var rows := Rows(Split(s));
    if rows == [] then Err(NoRows)
    else if !SameWidth(rows) then Err(RaggedRows)
    else Ok(LoadedGame(|rows[0]|, |rows|, LoadBoard(rows, unrevealed)))
  }

  // ---------------------------------------------------------------------------------------
  // The round trip

  lemma SavedRowsSurvive(g: Game)
    requires Rectangular(g)
    ensures Rows(Split(Serialize(g))) == Lines(g)
  {
    var lines := Lines(g);
    forall i | 0 <= i < |lines| ensures '\n' !in lines[i] && RStrip(lines[i]) == lines[i] && lines[i] != [] {
      var row := lines[i];
      assert forall x | 0 <= x < |row| :: row[x] in "*FOf.#";
      assert !IsSpace(row[|row| - 1]);
    }
    SplitJoin(lines);
    RowsOfClean(lines);
  }

  lemma {:induction false} RowsOfClean(lines: seq<string>)
    requires forall i | 0 <= i < |lines| :: RStrip(lines[i]) == lines[i] && lines[i] != []
    ensures Rows(lines) == lines
    decreases |lines|
  {
    if lines != [] {
      RowsOfClean(lines[1..]);
      assert [lines[0]] + lines[1..] == lines;
    }
  }

  /** Loading a saved board gives back its size and, cell by cell, what the cell's save
      character loads as; the numbers come back right and the mines left are recounted. */
  lemma RoundTrip(g: Game)
    requires Rectangular(g)
    ensures var r := Deserialize(Serialize(g), false);
            && r.Ok?
            && r.value.width == g.width && r.value.height == g.height
            && r.value.board == (map p | p in g.board :: CellFromChar(CellChar(g.board[p])))
            && NumbersAccurate(r.value)
  {
    SavedRowsSurvive(g);
    assert SameWidth(Lines(g));
    LoadSavedBoard(g);
  }

  lemma LoadSavedBoard(g: Game)
    requires Rectangular(g)
    ensures SameWidth(Lines(g))
    ensures LoadBoard(Lines(g), false) == map p | p in g.board :: CellFromChar(CellChar(g.board[p]))
  {
    SavedRowsSameWidth(g);
    var b := LoadBoard(Lines(g), false);
    forall p | p in b ensures b[p] == CellFromChar(CellChar(g.board[p])) {
      LoadedCellAt(g, p);
    }
    ResavedBoard(g.board, b);
  }

  /** A board with the same cells as `board`, each what that cell's save character loads as. */
  lemma ResavedBoard(board: Board, b: Board)
    requires b.Keys == board.Keys
    requires forall p | p in b :: b[p] == CellFromChar(CellChar(board[p]))
    ensures b == map p | p in board :: CellFromChar(CellChar(board[p]))
  {
  }

  lemma SavedRowsSameWidth(g: Game)
    requires Rectangular(g)
    ensures SameWidth(Lines(g)) && |Lines(g)[0]| == g.width
    ensures LoadBoard(Lines(g), false).Keys == g.board.Keys
  {
  }

  lemma LoadedCellAt(g: Game, p: Coord)
    requires Rectangular(g) && SameWidth(Lines(g))
    requires p in LoadBoard(Lines(g), false)
    ensures p in g.board && LoadBoard(Lines(g), false)[p] == CellFromChar(CellChar(g.board[p]))
  {
    SavedCharAt(g, p);
  }

  /** The save character at column x of line y is the character of cell (x, y). */
  lemma SavedCharAt(g: Game, p: Coord)
    requires Rectangular(g) && p in g.board
    ensures 0 <= p.1 < |Lines(g)| && 0 <= p.0 < |Lines(g)[p.1]|
    ensures Lines(g)[p.1][p.0] == CellChar(g.board[p])
  {
    CoordsMembership(g.width, g.height, p);
    assert Lines(g)[p.1] == RowText(g.board, g.width, p.1);
  }

  /** In particular a board of reachable cells with no losing mine comes back unchanged. */
  lemma RoundTripExact(g: Game)
    requires Rectangular(g)
    requires forall p | p in g.board :: Reachable(g.board[p]) && !g.board[p].losing
    ensures Deserialize(Serialize(g), false).Ok?
    ensures Deserialize(Serialize(g), false).value.board == g.board
  {
    RoundTrip(g);
    forall p | p in g.board ensures CellFromChar(CellChar(g.board[p])) == g.board[p] {
      CellRoundTrip(g.board[p]);
    }
  }
}
