/** The probability director (minesweeper/director/attempt2.py): groups of unrevealed cells with
    a known mine count, the simplifier that subtracts contained groups, the flattening of groups
    into per-cell probabilities, and the move it makes from them. */
module Groups {
  import opened Common
  import opened Grid
  import opened DirectorBase

  /** A set of cells and the number of mines among them. Two groups are equal exactly when
      their cells and their counts are, so a collection of groups behaves as a set. */
  datatype Group = Group(cells: set<Coord>, numMines: int)

  /** The group tells the truth about placement `mines`. */
  ghost predicate Holds(g: Group, mines: set<Coord>) {
    |g.cells * mines| == g.numMines
  }

  ghost predicate AllHold(gs: set<Group>, mines: set<Coord>) {
    forall g | g in gs :: Holds(g, mines)
  }

  /** Every cell some group of `gs` mentions. */
  function CellsOf(gs: set<Group>): set<Coord> {
    set g, p | g in gs && p in g.cells :: p
  }

  /** The share of a group's cells that are mines. */
  function Probability(g: Group): (p: real)
    requires g.cells != {}
    ensures p == 1.0 <==> g.numMines == |g.cells|
    ensures p == 0.0 <==> g.numMines == 0
    ensures p < 0.0 <==> g.numMines < 0
  {
    g.numMines as real / |g.cells| as real
  }

  /** A group that tells the truth has a probability between 0 and 1. */
  lemma ProbabilityInRange(g: Group, mines: set<Coord>)
    requires g.cells != {} && Holds(g, mines)
    ensures 0.0 <= Probability(g) <= 1.0
  {
    SubsetCard(g.cells * mines, g.cells);
  }

  /** Subtracting a contained group: the rest of the cells and the rest of the mines.
      The pieces split `a` cleanly: together they are `a`'s cells and they share none. */
  function Difference(a: Group, b: Group): (r: Group)
    requires b.cells <= a.cells
    ensures r.cells + b.cells == a.cells
    ensures r.cells !! b.cells
    ensures r.numMines + b.numMines == a.numMines
  {
    Group(a.cells - b.cells, a.numMines - b.numMines)
  }

  /** If both groups tell the truth about a placement, so does their difference. */
  lemma DifferenceSound(a: Group, b: Group, mines: set<Coord>)
    requires b.cells <= a.cells
    requires Holds(a, mines) && Holds(b, mines)
    ensures Holds(Difference(a, b), mines)
  {
    assert (a.cells - b.cells) * mines == (a.cells * mines) - (b.cells * mines);
    DifferenceCard(a.cells * mines, b.cells * mines);
  }

  // ---------------------------------------------------------------------------------------
  // Groups read off the board

  /** One group per numbered cell that has unrevealed neighbours: those neighbours, with the
      flags the number still needs. */
  function NumberGroups(snap: Snapshot): set<Group> {
    set c | c in snap && IsNumber(snap[c]) && UnrevealedNeighbors(snap, c) != {} ::
      Group(UnrevealedNeighbors(snap, c), NumFlagsLeft(snap, c))
  }

  predicate TouchesNumber(snap: Snapshot, u: Coord) {
    exists c | c in NeighborsIn(snap, u) :: IsNumber(snap[c])
  }

  /** The unrevealed cells that touch no number. */
  function Untouched(snap: Snapshot): set<Coord> {
    set u | u in snap && IsUnrevealed(snap[u]) && !TouchesNumber(snap, u)
  }

  /** The groups the director sees: the number groups, plus one catch-all group over the
      unrevealed cells touching no number, whose count is the board's mines-left counter. */
  function FindVisibleGroups(snap: Snapshot, minesLeft: int): (r: set<Group>)
    ensures forall g | g in r :: g.cells != {}
    ensures forall g, p | g in r && p in g.cells :: p in snap && IsUnrevealed(snap[p])
    ensures forall c | c in snap && IsNumber(snap[c]) && UnrevealedNeighbors(snap, c) != {} ::
              Group(UnrevealedNeighbors(snap, c), NumFlagsLeft(snap, c)) in r
    ensures Group(Untouched(snap), minesLeft) in r <==> Untouched(snap) != {}
    ensures forall u | u in snap && IsUnrevealed(snap[u]) :: u in CellsOf(r)
  {
    var rest := Untouched(snap);
    var r := NumberGroups(snap) + (if rest != {} then {Group(rest, minesLeft)} else {});
    VisibleGroupsCover(snap, minesLeft);
    VisibleGroupsDistinct(snap, minesLeft);
    r
  }

  lemma VisibleGroupsCover(snap: Snapshot, minesLeft: int)
    ensures var rest := Untouched(snap);
            var r := NumberGroups(snap) + (if rest != {} then {Group(rest, minesLeft)} else {});
            forall u | u in snap && IsUnrevealed(snap[u]) :: u in CellsOf(r)
  {
    var rest := Untouched(snap);
    var r := NumberGroups(snap) + (if rest != {} then {Group(rest, minesLeft)} else {});
    forall u | u in snap && IsUnrevealed(snap[u])
      ensures u in CellsOf(r)
    {
      if TouchesNumber(snap, u) {
        var c :| c in NeighborsIn(snap, u) && IsNumber(snap[c]);
        assert u in UnrevealedNeighbors(snap, c);
        assert Group(UnrevealedNeighbors(snap, c), NumFlagsLeft(snap, c)) in r;
      } else {
        assert u in rest;
      }
    }
  }

  /** No number group has the untouched cells as its cells. */
  lemma VisibleGroupsDistinct(snap: Snapshot, minesLeft: int)
    ensures forall g | g in NumberGroups(snap) :: g.cells * Untouched(snap) == {}
  {
    forall g | g in NumberGroups(snap)
      ensures g.cells * Untouched(snap) == {}
    {
      var c :| c in snap && IsNumber(snap[c]) && UnrevealedNeighbors(snap, c) != {}
               && g == Group(UnrevealedNeighbors(snap, c), NumFlagsLeft(snap, c));
      NumberCellsTouched(snap, c);
    }
  }

  lemma NumberCellsTouched(snap: Snapshot, c: Coord)
    requires c in snap && IsNumber(snap[c])
    ensures UnrevealedNeighbors(snap, c) * Untouched(snap) == {}
  {
    forall u | u in UnrevealedNeighbors(snap, c) ensures TouchesNumber(snap, u) {
      assert c in NeighborsIn(snap, u);
    }
  }

  /** The catch-all group's count is the true number of mines among the untouched cells. */
  ghost predicate CatchAllAccurate(snap: Snapshot, minesLeft: int, mines: set<Coord>) {
    Untouched(snap) == {} || |Untouched(snap) * mines| == minesLeft
  }

  /** Every visible group tells the truth about a placement consistent with the board, as long
      as the catch-all count is accurate (the source itself doubts that it always is). */
  lemma VisibleGroupsSound(snap: Snapshot, minesLeft: int, mines: set<Coord>)
    requires Consistent(snap, mines) && CatchAllAccurate(snap, minesLeft, mines)
    ensures AllHold(FindVisibleGroups(snap, minesLeft), mines)
  {
    forall g | g in FindVisibleGroups(snap, minesLeft)
      ensures Holds(g, mines)
    {
      if g in NumberGroups(snap) {
        var c :| c in snap && IsNumber(snap[c]) && UnrevealedNeighbors(snap, c) != {}
                 && g == Group(UnrevealedNeighbors(snap, c), NumFlagsLeft(snap, c));
        FlagsLeftCountsHiddenMines(snap, mines, c);
      }
    }
  }

  /** The catch-all count can be wrong: a `1` at (0,0) with unrevealed (1,0) and (2,0), one
      mine left, the mine at (1,0). The placement agrees with the board, yet the catch-all
      group claims the untouched cell (2,0) is a mine. */
  lemma CatchAllCanBeWrong()
    ensures var snap := map[(0, 0) := 1, (1, 0) := TypeUnrevealed, (2, 0) := TypeUnrevealed];
            && Consistent(snap, {(1, 0)})
            && Group({(2, 0)}, 1) in FindVisibleGroups(snap, 1)
            && !Holds(Group({(2, 0)}, 1), {(1, 0)})
  {
    var snap := map[(0, 0) := 1, (1, 0) := TypeUnrevealed, (2, 0) := TypeUnrevealed];
    ExampleUntouched(snap);
    ExampleConsistent(snap);
    assert {(2, 0)} * {(1, 0)} == {};
  }

  lemma ExampleUntouched(snap: Snapshot)
    requires snap == map[(0, 0) := 1, (1, 0) := TypeUnrevealed, (2, 0) := TypeUnrevealed]
    ensures Untouched(snap) == {(2, 0)}
  {
    ExampleNeighbors(snap);
    assert !TouchesNumber(snap, (2, 0));
    assert TouchesNumber(snap, (1, 0)) by {
      assert (0, 0) in NeighborsIn(snap, (1, 0));
    }
    assert (2, 0) in Untouched(snap);
    forall u | u in Untouched(snap) ensures u == (2, 0) {
      assert u in snap;
    }
  }

  lemma ExampleNeighbors(snap: Snapshot)
    requires snap == map[(0, 0) := 1, (1, 0) := TypeUnrevealed, (2, 0) := TypeUnrevealed]
    ensures NeighborsIn(snap, (2, 0)) == {(1, 0)}
    ensures (0, 0) in NeighborsIn(snap, (1, 0))
    ensures NeighborsIn(snap, (0, 0)) == {(1, 0)}
  {
    RowNeighbors(snap.Keys, (2, 0), (1, 0));
    RowNeighbors(snap.Keys, (0, 0), (1, 0));
  }

  /** On the row {(0,0), (1,0), (2,0)} an end cell's only neighbour is the middle one. */
  lemma RowNeighbors(keys: set<Coord>, end: Coord, mid: Coord)
    requires keys == {(0, 0), (1, 0), (2, 0)}
    requires end in {(0, 0), (2, 0)} && mid == (1, 0)
    ensures forall p :: p in keys && Adjacent(end, p) <==> p == mid
  {
  }

  lemma ExampleConsistent(snap: Snapshot)
    requires snap == map[(0, 0) := 1, (1, 0) := TypeUnrevealed, (2, 0) := TypeUnrevealed]
    ensures Consistent(snap, {(1, 0)})
  {
    ExampleNeighbors(snap);
    ExampleCells(snap);
    assert NeighborsIn(snap, (0, 0)) * {(1, 0)} == {(1, 0)};
  }

  /** Only (0,0) shows a number; the other two cells are unrevealed. */
  lemma ExampleCells(snap: Snapshot)
    requires snap == map[(0, 0) := 1, (1, 0) := TypeUnrevealed, (2, 0) := TypeUnrevealed]
    ensures forall c | c in snap :: (c == (0, 0) && snap[c] == 1) || (c != (0, 0) && snap[c] == TypeUnrevealed)
  {
  }

  // ---------------------------------------------------------------------------------------
  // Simplification

  /** The other groups that share a cell with `g` and lie inside it. */
  function ContainedRelatives(gs: set<Group>, g: Group): set<Group> {
    set h | h in gs && h != g && h.cells * g.cells != {} && h.cells <= g.cells
  }

  /** Replace `g` by its differences with every group it contains. */
  function Rewrite(gs: set<Group>, g: Group): set<Group> {
    (gs - {g}) + (set h | h in ContainedRelatives(gs, g) :: Difference(g, h))
  }

  /** Rewriting keeps every group truthful and mentions no new cell. */
  lemma RewriteSound(gs: set<Group>, g: Group, mines: set<Coord>)
    requires g in gs && AllHold(gs, mines)
    ensures AllHold(Rewrite(gs, g), mines)
  {
    forall k | k in Rewrite(gs, g)
      ensures Holds(k, mines)
    {
      if k !in gs - {g} {
        var h :| h in ContainedRelatives(gs, g) && k == Difference(g, h);
        DifferenceSound(g, h, mines);
      }
    }
  }

  /** Rewriting mentions no new cell, and when `g` contains a relative it loses none either:
      each cell of `g` stays in the relative or in the difference with it. */
  lemma RewriteCells(gs: set<Group>, g: Group)
    requires g in gs
    ensures CellsOf(Rewrite(gs, g)) <= CellsOf(gs)
    ensures ContainedRelatives(gs, g) != {} ==> CellsOf(Rewrite(gs, g)) == CellsOf(gs)
  {
    forall p | p in CellsOf(Rewrite(gs, g))
      ensures p in CellsOf(gs)
    {
      var k :| k in Rewrite(gs, g) && p in k.cells;
      if k !in gs - {g} {
        assert p in g.cells;
      }
    }
    if h :| h in ContainedRelatives(gs, g) {
      forall p | p in CellsOf(gs)
        ensures p in CellsOf(Rewrite(gs, g))
      {
        var k :| k in gs && p in k.cells;
        if k == g {
          var d := Difference(g, h);
          assert d in Rewrite(gs, g);
          assert h in Rewrite(gs, g);
          assert p in d.cells || p in h.cells;
        } else {
          assert k in Rewrite(gs, g);
        }
      }
    }
  }

  /** A non-empty set of groups has one of least size. */
  lemma {:induction false} SmallestExists(gs: set<Group>)
    requires gs != {}
    ensures exists g :: g in gs && IsSmallest(gs, g)
  {
    var x :| x in gs;
    if gs == {x} {
      assert IsSmallest(gs, x);
    } else {
      SmallestExists(gs - {x});
      var y :| y in gs - {x} && IsSmallest(gs - {x}, y);
      if |x.cells| <= |y.cells| {
        assert IsSmallest(gs, x);
      } else {
        assert IsSmallest(gs, y);
      }
    }
  }

  /** No group of `gs` has fewer cells than `g`. */
  predicate IsSmallest(gs: set<Group>, g: Group) {
    forall h | h in gs :: |g.cells| <= |h.cells|
  }

  /** Repeatedly visit the groups smallest first and replace each one that contains a relative
      by its differences, until a whole pass changes nothing. The source loops without a bound;
      here at most `maxPasses` passes run and `settled` says whether the fixed point was reached.
      On a fixed point no group contains a relative; at every point the groups stay truthful
      about any placement the input groups were truthful about, and mention exactly the cells
      the input groups mention. */
  method SimplifyGroups(groups: set<Group>, maxPasses: nat) returns (r: set<Group>, settled: bool)
    ensures settled ==> forall g | g in r :: ContainedRelatives(r, g) == {}
    ensures forall mines | AllHold(groups, mines) :: AllHold(r, mines)
    ensures CellsOf(r) == CellsOf(groups)
  {
    r := groups;
    settled := false;
    var passes := 0;
    while !settled && passes < maxPasses
      invariant settled ==> forall g | g in r :: ContainedRelatives(r, g) == {}
      invariant forall mines | AllHold(groups, mines) :: AllHold(r, mines)
      invariant CellsOf(r) == CellsOf(groups)
      decreases maxPasses - passes
    {
      settled := true;
      var todo := r;
      ghost var start := r;
      while todo != {}
        invariant todo <= r
        invariant settled ==> r == start
        invariant settled ==> forall g | g in start - todo :: ContainedRelatives(r, g) == {}
        invariant forall mines | AllHold(groups, mines) :: AllHold(r, mines)
        invariant CellsOf(r) == CellsOf(groups)
        decreases todo
      {
        SmallestExists(todo);
        var g :| g in todo && IsSmallest(todo, g);
        todo := todo - {g};
        if ContainedRelatives(r, g) != {} {
          forall mines | AllHold(groups, mines)
            ensures AllHold(Rewrite(r, g), mines)
          {
            RewriteSound(r, g, mines);
          }
          RewriteCells(r, g);
          r := Rewrite(r, g);
          settled := false;
        }
      }
      passes := passes + 1;
    }
  }

  // ---------------------------------------------------------------------------------------
  // Probabilities and the move

  /** `p` is the largest probability among the groups of `gs` that contain `c`. */
  ghost predicate IsMaxProbability(gs: set<Group>, c: Coord, p: real) {
    && (exists g | g in gs && c in g.cells :: Probability(g) == p)
    && (forall g | g in gs && c in g.cells :: Probability(g) <= p)
  }

  /** The largest probability among the given groups, all of which contain `c`. */
  method MaxProbability(containers: set<Group>, c: Coord) returns (p: real)
    requires containers != {}
    requires forall g | g in containers :: c in g.cells
    ensures exists g | g in containers :: Probability(g) == p
    ensures forall g | g in containers :: Probability(g) <= p
  {
    var first :| first in containers;
    p := Probability(first);
    var todo := containers - {first};
    while todo != {}
      invariant todo <= containers
      invariant exists g | g in containers :: Probability(g) == p
      invariant forall g | g in containers - todo :: Probability(g) <= p
      decreases todo
    {
      var g :| g in todo;
      if Probability(g) > p {
        p := Probability(g);
      }
      todo := todo - {g};
    }
  }

  /** Each cell some group mentions gets the largest probability among the groups containing it. */
  method FlattenGroups(gs: set<Group>) returns (probs: map<Coord, real>)
    ensures probs.Keys == CellsOf(gs)
    ensures forall c | c in probs :: IsMaxProbability(gs, c, probs[c])
  {
    probs := map[];
    var todo := CellsOf(gs);
    while todo != {}
      invariant todo <= CellsOf(gs)
      invariant probs.Keys == CellsOf(gs) - todo
      invariant forall c | c in probs :: IsMaxProbability(gs, c, probs[c])
      decreases todo
    {
      var c :| c in todo;
      var g0, q :| g0 in gs && q in g0.cells && q == c;
      var containers := set g | g in gs && c in g.cells;
      assert g0 in containers;
      var p := MaxProbability(containers, c);
      probs := probs[c := p];
      todo := todo - {c};
    }
  }

  /** What the director does: flag and reveal the certain cells, or click one least-risky cell. */
  datatype Decision = Certain(toFlag: set<Coord>, toReveal: set<Coord>) | Guess(cell: Coord)

  datatype ActError = NoUnrevealedCells | NotSettled

  /** No cell of `probs` has a smaller probability than `c`. */
  predicate IsLeastLikely(probs: map<Coord, real>, c: Coord)
    requires c in probs
  {
    forall d | d in probs :: probs[c] <= probs[d]
  }

  lemma SmallestProbabilityExists(probs: map<Coord, real>)
    requires probs != map[]
    ensures exists c :: c in probs && IsLeastLikely(probs, c)
  {
    var x :| x in probs;
    var rest := probs - {x};
    if rest == map[] {
      forall d | d in probs
        ensures probs[x] <= probs[d]
      {
        assert d !in rest;
      }
      assert IsLeastLikely(probs, x);
    } else {
      SmallestProbabilityExists(rest);
      var y :| y in rest && IsLeastLikely(rest, y);
      var m := if probs[x] <= probs[y] then x else y;
      forall d | d in probs
        ensures probs[m] <= probs[d]
      {
        if d != x {
          assert d in rest;
        }
      }
      assert IsLeastLikely(probs, m);
    }
  }

  /** Cells of probability 1 are flagged and cells of probability 0 revealed; only when there
      are none is a single cell of least probability clicked. No cells at all is an error. */
  method Decide(probs: map<Coord, real>) returns (r: Result<Decision, ActError>)
    ensures r.Err? <==> probs == map[]
    ensures r.Ok? && r.value.Certain? ==>
              && r.value.toFlag == (set c | c in probs && probs[c] == 1.0)
              && r.value.toReveal == (set c | c in probs && probs[c] == 0.0)
    ensures r.Ok? ==> (r.value.Certain? <==> exists c | c in probs :: probs[c] == 1.0 || probs[c] == 0.0)
    ensures r.Ok? && r.value.Guess? ==>
              && r.value.cell in probs
              && IsLeastLikely(probs, r.value.cell)
  {
    if probs == map[] {
      return Err(NoUnrevealedCells);
    }
    var toFlag := set c | c in probs && probs[c] == 1.0;
    var toReveal := set c | c in probs && probs[c] == 0.0;
    if toFlag != {} || toReveal != {} {
      if toFlag != {} {
        var w :| w in toFlag;
        assert w in probs && probs[w] == 1.0;
      } else {
        var w :| w in toReveal;
        assert w in probs && probs[w] == 0.0;
      }
      r := Ok(Certain(toFlag, toReveal));
    } else {
      assert forall c | c in probs :: (probs[c] == 1.0 ==> c in toFlag) && (probs[c] == 0.0 ==> c in toReveal);
      SmallestProbabilityExists(probs);
      var c :| c in probs && IsLeastLikely(probs, c);
      r := Ok(Guess(c));
    }
  }

  /** Every cell of a truthful group is a mine when the group is full of mines. */
  lemma FullGroupAllMines(g: Group, mines: set<Coord>)
    requires Holds(g, mines) && g.numMines == |g.cells|
    ensures g.cells <= mines
  {
    if x :| x in g.cells && x !in mines {
      SubsetCard(g.cells * mines, g.cells - {x});
    }
  }

  /** Moves taken from probability 1 or 0 are right in every placement all groups are true to. */
  lemma CertainCellsSound(gs: set<Group>, probs: map<Coord, real>, mines: set<Coord>)
    requires AllHold(gs, mines)
    requires forall c | c in probs :: IsMaxProbability(gs, c, probs[c])
    ensures forall c | c in probs && probs[c] == 1.0 :: c in mines
    ensures forall c | c in probs && probs[c] == 0.0 :: c !in mines
  {
    forall c | c in probs && probs[c] == 1.0
      ensures c in mines
    {
      var g :| g in gs && c in g.cells && Probability(g) == probs[c];
      FullGroupAllMines(g, mines);
    }
    forall c | c in probs && probs[c] == 0.0
      ensures c !in mines
    {
      var g :| g in gs && c in g.cells && Probability(g) == probs[c];
      assert |g.cells * mines| == 0;
      assert c !in g.cells * mines;
    }
  }

  /** One decision cycle: read the groups off the board, simplify them, flatten them and decide.
      Any flag it places is on a mine and any cell it reveals is safe, in every placement that
      agrees with the board and makes the catch-all count accurate. Without an unrevealed cell it
      never decides, and with one it fails only when the simplification does not settle. */
  method Act(snap: Snapshot, minesLeft: int, maxPasses: nat) returns (r: Result<Decision, ActError>)
    ensures r.Ok? && r.value.Certain? ==>
              forall mines | Consistent(snap, mines) && CatchAllAccurate(snap, minesLeft, mines) ::
                r.value.toFlag <= mines && r.value.toReveal !! mines
    ensures r.Ok? ==> exists u | u in snap :: IsUnrevealed(snap[u])
    ensures (exists u | u in snap :: IsUnrevealed(snap[u])) && r.Err? ==> r.error == NotSettled
  {
    var visible := FindVisibleGroups(snap, minesLeft);
    var groups, settled := SimplifyGroups(visible, maxPasses);
    if !settled {
      return Err(NotSettled);
    }
    var probs := FlattenGroups(groups);
    r := Decide(probs);
    if r.Ok? {
      var c :| c in probs;
      assert c in CellsOf(visible);
    }
    if u :| u in snap && IsUnrevealed(snap[u]) {
      assert u in probs;
    }
    if r.Ok? && r.value.Certain? {
      forall mines | Consistent(snap, mines) && CatchAllAccurate(snap, minesLeft, mines)
        ensures r.value.toFlag <= mines && r.value.toReveal !! mines
      {
        VisibleGroupsSound(snap, minesLeft, mines);
        CertainCellsSound(groups, probs, mines);
      }
    }
  }
}
