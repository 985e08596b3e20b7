/** The array-based board (minesweeper/minesweeper_numpy.py, class Board): one boolean grid
    each for mines, revealed and flags, a grid of neighbour counts, and the exploded mine. */
module NumpyBoard {
  import opened Common
  import opened Grid

  /** An element of the uint8 number grid. */
  type U8 = x: int | 0 <= x < 256

  /** The grids as the sets of positions where they hold true; `numbers` covers every cell.
      `exploded` keeps the index pair exactly as the click was given it, so a negative index
      stays negative; `Locate` says which cell it addresses. */
  datatype NBoard = NBoard(
    width: nat, height: nat,
    mines: set<Coord>, numbers: map<Coord, U8>, revealed: set<Coord>, flags: set<Coord>,
    exploded: Option<Coord>)

  /** Board.empty: nothing mined, revealed or flagged, every number zero. */
  function Empty(w: nat, h: nat): (b: NBoard)
    ensures b.width == w && b.height == h
    ensures b.mines == {} && b.revealed == {} && b.flags == {} && b.exploded == None
    ensures b.numbers.Keys == Coords(w, h) && forall p | p in b.numbers :: b.numbers[p] == 0
  {
    NBoard(w, h, {}, map p | p in Coords(w, h) :: 0, {}, {}, None)
  }

  /** Board.is_lost: a mine has exploded. */
  predicate IsLost(b: NBoard) {
    b.exploded.Some?
  }

  // ---------------------------------------------------------------------------------------
  // Indexing

  /** Indexing a grid outside its shape raises IndexError. */
  datatype IndexError = IndexError(x: int, y: int)

  /** numpy's reading of an index along an axis of length `n`: a negative index counts back
      from the end, and anything outside `-n .. n-1` is out of range. */
  function AxisIndex(i: int, n: nat): (r: Option<nat>)
    ensures r.Some? <==> 0 <= i + n && i < n
    ensures r.Some? ==> r.value < n && (r.value == i || r.value == i + n)
  {
    if 0 <= i < n then Some(i)
    else if 0 <= i + n && i < 0 then Some(i + n)
    else None
  }

  /** The cell `[x, y]` addresses, or the error indexing raises. */
  function Locate(b: NBoard, x: int, y: int): (r: Result<Coord, IndexError>)
    ensures r.Ok? ==> r.value in Coords(b.width, b.height)
    ensures r.Err? <==> !(0 <= x + b.width && x < b.width && 0 <= y + b.height && y < b.height)
    ensures r.Err? ==> r.error == IndexError(x, y)
    ensures 0 <= x < b.width && 0 <= y < b.height ==> r == Ok((x, y))
  {
    match (AxisIndex(x, b.width), AxisIndex(y, b.height))
    case (Some(i), Some(j)) =>
      CoordsMembership(b.width, b.height, (i, j));
      Ok((i, j))
    case _ => Err(IndexError(x, y))
  }

  // ---------------------------------------------------------------------------------------
  // Clicks

  /** Board.click as the source writes it. A flagged or revealed cell ignores it. Otherwise
      the cell is revealed and a mine explodes; an empty cell floods, and the flood's result
      is written over the whole reveal grid. `area` stands for the cells binary_dilation
      marks for that flood, which this model does not compute. */
  function ClickAsWritten(b: NBoard, x: int, y: int, area: set<Coord>): (r: Result<NBoard, IndexError>)
    ensures r.Err? <==> Locate(b, x, y).Err?
    ensures r.Ok? ==> var c := Locate(b, x, y).value;
              if c in b.flags || c in b.revealed then r.value == b
              else if c in b.mines then r.value == b.(revealed := b.revealed + {c}, exploded := Some((x, y)))
              else if c in b.numbers && b.numbers[c] == 0 then r.value == b.(revealed := area)
              else r.value == b.(revealed := b.revealed + {c})
  {
    match Locate(b, x, y)
    case Err(e) => Err(e)
    case Ok(c) =>
      if c in b.flags || c in b.revealed then Ok(b)
      else
        var shown := b.(revealed := b.revealed + {c});
        if c in b.mines then Ok(shown.(exploded := Some((x, y))))
        else if c in b.numbers && b.numbers[c] == 0 then Ok(shown.(revealed := area))
        else Ok(shown)
  }

  /** Clicking an empty cell as written hides again every revealed cell the flood does not
      reach. */
  lemma ClickForgetsReveals(b: NBoard, c: Coord, area: set<Coord>, p: Coord)
    requires c in Coords(b.width, b.height)
    requires c !in b.flags && c !in b.revealed && c !in b.mines && c in b.numbers && b.numbers[c] == 0
    requires p in b.revealed && p !in area
    ensures ClickAsWritten(b, c.0, c.1, area).Ok?
    ensures p !in ClickAsWritten(b, c.0, c.1, area).value.revealed
  {
    CoordsMembership(b.width, b.height, c);
  }

  /** A five-by-one row with a mine in the middle: after the left end is opened, opening the
      right end hides the left end again. The flood from the right end cannot cross the mine,
      so whichever of the right two cells it marks, the left end is not among them. */
  lemma ClickForgetsExample(area: set<Coord>)
    requires area <= {(3, 0), (4, 0)}
    ensures var b := NBoard(5, 1, {(2, 0)}, map[(0, 0) := 0, (1, 0) := 1, (2, 0) := 0, (3, 0) := 1, (4, 0) := 0],
                            {(0, 0), (1, 0)}, {}, None);
            var r := ClickAsWritten(b, 4, 0, area);
            r.Ok? && (0, 0) in b.revealed && (0, 0) !in r.value.revealed
  {
    var b := NBoard(5, 1, {(2, 0)}, map[(0, 0) := 0, (1, 0) := 1, (2, 0) := 0, (3, 0) := 1, (4, 0) := 0],
                    {(0, 0), (1, 0)}, {}, None);
    assert (0, 0) !in area;
    ClickForgetsReveals(b, (4, 0), area, (0, 0));
  }

  /** Board.click as evidently intended: the flood adds its cells to those already revealed.
      A flagged or revealed cell ignores it; the mines, flags and numbers never change. */
  function Click(b: NBoard, x: int, y: int, area: set<Coord>): (r: Result<NBoard, IndexError>)
    ensures r.Err? <==> Locate(b, x, y).Err?
    ensures r.Ok? ==> var c := Locate(b, x, y).value;
              && (c in b.flags || c in b.revealed ==> r.value == b)
              && r.value == b.(revealed := r.value.revealed, exploded := r.value.exploded)
              && (c !in b.flags ==> c in r.value.revealed)
              && (c !in b.flags && c !in b.revealed && c in b.mines ==> r.value.exploded == Some((x, y)))
              && (!(c !in b.flags && c !in b.revealed && c in b.mines) ==> r.value.exploded == b.exploded)
  {
    match Locate(b, x, y)
    case Err(e) => Err(e)
    case Ok(c) =>
      if c in b.flags || c in b.revealed then Ok(b)
      else
        var shown := b.(revealed := b.revealed + {c});
        if c in b.mines then Ok(shown.(exploded := Some((x, y))))
        else if c in b.numbers && b.numbers[c] == 0 then Ok(shown.(revealed := shown.revealed + area))
        else Ok(shown)
  }

  /** The intended click only ever reveals more: the cell itself and, for an empty cell, the
      flood's cells. */
  lemma ClickKeepsReveals(b: NBoard, x: int, y: int, area: set<Coord>)
    requires Click(b, x, y, area).Ok?
    ensures b.revealed <= Click(b, x, y, area).value.revealed
    ensures Click(b, x, y, area).value.revealed <= b.revealed + {Locate(b, x, y).value} + area
  {
  }

  /** A negative index explodes a mine under the pair it was given: on a five-by-one row with
      a mine at the right end, clicking `(-1, 0)` records `(-1, 0)`, which addresses the mine. */
  lemma ClickKeepsRawIndex()
    ensures var b := NBoard(5, 1, {(4, 0)}, map[(0, 0) := 0, (1, 0) := 0, (2, 0) := 0, (3, 0) := 1, (4, 0) := 0],
                            {}, {}, None);
            && Locate(b, -1, 0) == Ok((4, 0))
            && Click(b, -1, 0, {}).Ok? && Click(b, -1, 0, {}).value.exploded == Some((-1, 0))
            && ClickAsWritten(b, -1, 0, {}) == Click(b, -1, 0, {})
  {
  }

  /** Board.middle_click: it goes on only for a revealed unflagged cell, and then clicks it,
      which a revealed cell ignores. So it never changes the board. */
  function MiddleClick(b: NBoard, x: int, y: int, area: set<Coord>): (r: Result<NBoard, IndexError>)
    ensures r.Err? <==> Locate(b, x, y).Err?
  {
    match Locate(b, x, y)
    case Err(e) => Err(e)
    case Ok(c) =>
      if c in b.flags || c !in b.revealed then Ok(b)
      else Click(b, x, y, area)
  }

  lemma MiddleClickNoOp(b: NBoard, x: int, y: int, area: set<Coord>)
    requires Locate(b, x, y).Ok?
    ensures MiddleClick(b, x, y, area) == Ok(b)
  {
  }

  /** Board.right_click: toggle the flag, revealed or not. */
  function RightClick(b: NBoard, x: int, y: int): (r: Result<NBoard, IndexError>)
    ensures r.Err? <==> Locate(b, x, y).Err?
    ensures r.Ok? ==> var c := Locate(b, x, y).value;
              && r.value == b.(flags := r.value.flags)
              && (c in r.value.flags <==> c !in b.flags)
              && forall p | p != c :: p in r.value.flags <==> p in b.flags
  {
    match Locate(b, x, y)
    case Err(e) => Err(e)
    case Ok(c) => Ok(b.(flags := if c in b.flags then b.flags - {c} else b.flags + {c}))
  }

  /** Two right-clicks on the same cell restore the board. */
  lemma RightClickTwice(b: NBoard, x: int, y: int)
    requires Locate(b, x, y).Ok?
    ensures RightClick(RightClick(b, x, y).value, x, y) == Ok(b)
  {
    var c := Locate(b, x, y).value;
    var once := RightClick(b, x, y).value;
    assert Locate(once, x, y) == Ok(c);
    assert once.flags == if c in b.flags then b.flags - {c} else b.flags + {c};
    if c in b.flags {
      assert once.flags + {c} == b.flags;
    } else {
      assert once.flags - {c} == b.flags;
    }
  }

  /** Once lost, always lost: no click, chord or flag undoes an explosion, and only clicking a
      hidden mine causes one. */
  lemma LostStaysLost(b: NBoard, x: int, y: int, area: set<Coord>)
    ensures Click(b, x, y, area).Ok? && IsLost(b) ==> IsLost(Click(b, x, y, area).value)
    ensures ClickAsWritten(b, x, y, area).Ok? && IsLost(b) ==> IsLost(ClickAsWritten(b, x, y, area).value)
    ensures MiddleClick(b, x, y, area).Ok? ==> MiddleClick(b, x, y, area).value == b
    ensures RightClick(b, x, y).Ok? ==> IsLost(RightClick(b, x, y).value) == IsLost(b)
  {
    if MiddleClick(b, x, y, area).Ok? {
      MiddleClickNoOp(b, x, y, area);
    }
  }

  // ---------------------------------------------------------------------------------------
  // Text

  /** The character of a decimal digit. */
  function Digit(d: int): (ch: char)
    requires 0 <= d <= 9
    ensures '0' <= ch <= '9' && ch as int - '0' as int == d
  {
    (d + '0' as int) as char
  }

  /** `str(n)` stored in a one-character cell keeps the leading digit. */
  function LeadingDigit(n: U8): (ch: char)
    ensures '0' <= ch <= '9'
    ensures n < 10 ==> ch == Digit(n)
  {
    if n < 10 then Digit(n) else if n < 100 then Digit(n / 10) else Digit(n / 100)
  }

  /** The character Board.serialize writes for a cell. The `*` it writes for the exploded mine
      is always overwritten, because the flag, mine and number cases that follow cover every
      revealed cell. */
  function CellText(b: NBoard, p: Coord): (ch: char)
    ensures ch == '#' <==> p !in b.revealed
    ensures ch != '*'
    ensures p in b.revealed ==>
              && (ch == 'F' <==> p in b.flags)
              && (ch == 'O' <==> p !in b.flags && p in b.mines)
              && (p !in b.flags && p !in b.mines ==>
                    ch == if p in b.numbers && b.numbers[p] != 0 then LeadingDigit(b.numbers[p]) else ' ')
  {
    if p !in b.revealed then '#'
    else
      if p in b.flags then 'F'
      else if p in b.mines then 'O'
      else
        var n: U8 := if p in b.numbers then b.numbers[p] else 0;
        if n == 0 then ' ' else LeadingDigit(n)
  }

  /** Board.serialize after its transpose: one row per y, one character per x. */
  function Serialize(b: NBoard): (rows: seq<string>)
    ensures |rows| == b.height
    ensures forall y | 0 <= y < b.height :: |rows[y]| == b.width
    ensures forall y, x | 0 <= y < b.height && 0 <= x < b.width :: rows[y][x] == CellText(b, (x, y))
  {
    seq(b.height, y requires 0 <= y < b.height => seq(b.width, x requires 0 <= x < b.width => CellText(b, (x, y))))
  }

  /** The cell the exploded index addresses shows as a mine, or as a flag if it was flagged
      later. */
  lemma ExplodedShowsAsMine(b: NBoard, p: Coord)
    requires b.exploded.Some? && Locate(b, b.exploded.value.0, b.exploded.value.1) == Ok(p)
    requires p in b.revealed && p in b.mines
    ensures CellText(b, p) == if p in b.flags then 'F' else 'O'
  {
  }

  // ---------------------------------------------------------------------------------------
  // Laying mines

  /** The stop index Python uses for the slice `[:n]` of a sequence of length `len`. */
  function SliceStop(n: int, len: nat): (k: nat)
    ensures k <= len
    ensures 0 <= n ==> k == if n <= len then n else len
    ensures n < 0 ==> k == if -n <= len then len + n else 0
  {
    if n >= 0 then (if n <= len then n else len)
    else if -n <= len then len + n else 0
  }

  predicate Distinct<T(==)>(s: seq<T>) {
    forall i, j | 0 <= i < j < |s| :: s[i] != s[j]
  }

  lemma {:induction false} DistinctCard<T>(s: seq<T>)
    requires Distinct(s)
    ensures |set i | 0 <= i < |s| :: s[i]| == |s|
    decreases |s|
  {
    if s != [] {
      var init := s[..|s| - 1];
      DistinctCard(init);
      var a := set i | 0 <= i < |init| :: init[i];
      var b := set i | 0 <= i < |s| :: s[i];
      assert b == a + {s[|s| - 1]};
      assert s[|s| - 1] !in a;
    }
  }

  /** The mines among the eight cells around `p`. */
  function MinesAround(mines: set<Coord>, p: Coord): (n: U8)
    ensures n <= 8
    ensures n == |set q | q in mines && Adjacent(p, q)|
  {
    var around := set q | q in Box(p) && q in mines;
    assert around == set q | q in mines && Adjacent(p, q);
    SubsetCard(around, Box(p));
    |around|
  }

  /** Board.fill_mines on an empty board: the first `n` cells of the flattened grid (Python
      slice rules) become mines and the grid is shuffled, which `shuffled`, the order the
      shuffle puts the cells in, stands for. Then every cell gets its neighbour-mine count. */
  function FillMines(b: NBoard, n: int, shuffled: seq<Coord>): (r: NBoard)
    requires b.mines == {}
    requires Distinct(shuffled) && forall p :: p in shuffled <==> p in Coords(b.width, b.height)
    ensures r == b.(mines := r.mines, numbers := r.numbers)
    ensures r.mines <= Coords(b.width, b.height)
    ensures |r.mines| == SliceStop(n, |shuffled|)
    ensures r.numbers.Keys == Coords(b.width, b.height)
    ensures forall p | p in r.numbers :: r.numbers[p] == |set q | q in r.mines && Adjacent(p, q)|
  {
    var k := SliceStop(n, |shuffled|);
    var laid := shuffled[..k];
    assert Distinct(laid);
    DistinctCard(laid);
    var mines := set i | 0 <= i < k :: shuffled[i];
    assert mines == set i | 0 <= i < |laid| :: laid[i];
    b.(mines := mines, numbers := map p | p in Coords(b.width, b.height) :: MinesAround(mines, p))
  }
}
