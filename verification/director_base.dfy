/** The board as a director sees it (minesweeper/director/base.py): one integer type per cell,
    the predicates over those types, and the neighbour lookups the deduction rules build on. */
module DirectorBase {
  import opened Common
  import opened Grid

  const TypeNumber0: int := 0
  const TypeNumber8: int := 8
  const TypeUnrevealed: int := 9
  const TypeFlag: int := 10

  /** A snapshot of the board: every on-board position mapped to its cell type. */
  type Snapshot = map<Coord, int>

  predicate IsFlagged(t: int) { t == TypeFlag }

  predicate IsEmpty(t: int) { t == TypeNumber0 }

  /** Zero is a number too, but the director never treats it like one. */
  predicate IsNumber(t: int) { t <= TypeNumber8 && !IsEmpty(t) }

  predicate IsUnrevealed(t: int) { t == TypeUnrevealed }

  /** Everything that is not unrevealed counts as revealed, flags included. */
  predicate IsRevealed(t: int) { !IsUnrevealed(t) }

  /** The number a cell shows, or `None` for cells that show none. */
  function Number(t: int): (r: Option<int>)
    ensures 0 <= t <= 10 ==> (r.Some? <==> 1 <= t <= 8)
    ensures r.Some? ==> r.value == t
  {
    if IsNumber(t) then Some(t) else None
  }

  /** Over the eleven types the board hands out, exactly one of the four categories applies,
      and "revealed" means any category except "unrevealed". */
  lemma ExactlyOneCategory(t: int)
    requires 0 <= t <= 10
    ensures IsEmpty(t) || IsNumber(t) || IsUnrevealed(t) || IsFlagged(t)
    ensures !(IsEmpty(t) && IsNumber(t)) && !(IsEmpty(t) && IsUnrevealed(t)) && !(IsEmpty(t) && IsFlagged(t))
    ensures !(IsNumber(t) && IsUnrevealed(t)) && !(IsNumber(t) && IsFlagged(t))
    ensures !(IsUnrevealed(t) && IsFlagged(t))
    ensures IsRevealed(t) <==> IsEmpty(t) || IsNumber(t) || IsFlagged(t)
  {
  }

  /** The unrevealed neighbours of `c`. */
  function UnrevealedNeighbors(snap: Snapshot, c: Coord): (r: set<Coord>)
    ensures forall p :: p in r <==> p in snap && Adjacent(c, p) && IsUnrevealed(snap[p])
  {
    set p | p in NeighborsIn(snap, c) && IsUnrevealed(snap[p])
  }

  /** The flagged neighbours of `c`. */
  function FlaggedNeighbors(snap: Snapshot, c: Coord): (r: set<Coord>)
    ensures forall p :: p in r <==> p in snap && Adjacent(c, p) && IsFlagged(snap[p])
  {
    set p | p in NeighborsIn(snap, c) && IsFlagged(snap[p])
  }

  /** How many more flags a numbered cell needs: its number minus its flagged neighbours. */
  function NumFlagsLeft(snap: Snapshot, c: Coord): int
    requires c in snap
  {
    snap[c] - |FlaggedNeighbors(snap, c)|
  }

  /** Placement `mines` agrees with everything the snapshot shows: mines sit only under
      unrevealed or flagged cells, every flag is on a mine, and every revealed number or
      empty cell counts exactly its neighbouring mines. */
  ghost predicate Consistent(snap: Snapshot, mines: set<Coord>) {
    && mines <= snap.Keys
    && (forall p | p in snap && IsFlagged(snap[p]) :: p in mines)
    && (forall p | p in mines :: IsUnrevealed(snap[p]) || IsFlagged(snap[p]))
    && (forall c | c in snap && (IsNumber(snap[c]) || IsEmpty(snap[c])) ::
          |NeighborsIn(snap, c) * mines| == snap[c])
  }

  /** Under a consistent placement, the flags a number still needs are exactly the mines
      among its unrevealed neighbours. */
  lemma FlagsLeftCountsHiddenMines(snap: Snapshot, mines: set<Coord>, c: Coord)
    requires Consistent(snap, mines)
    requires c in snap && IsNumber(snap[c])
    ensures |UnrevealedNeighbors(snap, c) * mines| == NumFlagsLeft(snap, c)
  {
    var n := NeighborsIn(snap, c);
    var u := UnrevealedNeighbors(snap, c) * mines;
    var f := FlaggedNeighbors(snap, c);
    assert n * mines == u + f;
    DisjointUnionCard(u, f);
  }
}
