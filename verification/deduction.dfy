/** The pattern director (minesweeper/director/attempt1.py): deduction rules over a board
    snapshot, each returning the first plan it finds, and the priority between confident
    planners and guesses. Every confident rule is proved sound: the cells it clicks are safe
    and the cells it flags are mines in every placement that agrees with the board. */
module Deduction {
  import opened Common
  import opened Grid
  import opened DirectorBase
  import opened Groups
  import opened SubsetMaps

  datatype Action = Click | RightClick | MiddleClick

  /** A planner's answer: one kind of click on a set of cells. */
  datatype Plan = Plan(action: Action, cells: set<Coord>)

  /** The plan is right about placement `mines`: clicked cells are safe, flagged cells are
      mines, and a chorded number has no mine among its unrevealed neighbours. */
  ghost predicate PlanSound(snap: Snapshot, plan: Plan, mines: set<Coord>) {
    match plan.action
    case Click => plan.cells !! mines
    case RightClick => plan.cells <= mines
    case MiddleClick => forall c | c in plan.cells :: UnrevealedNeighbors(snap, c) !! mines
  }

  predicate IsNumbered(snap: Snapshot, c: Coord) {
    c in snap && IsNumber(snap[c])
  }

  /** The first plan `f` finds, trying the candidates in order. */
  function {:induction false} FirstSome<T>(xs: seq<T>, f: T -> Option<Plan>): (r: Option<Plan>)
    ensures r.Some? ==> exists i | 0 <= i < |xs| :: f(xs[i]) == r && forall j | 0 <= j < i :: f(xs[j]).None?
    ensures r.None? <==> forall i | 0 <= i < |xs| :: f(xs[i]).None?
    decreases |xs|
  {
    if xs == [] then None
    else if f(xs[0]).Some? then f(xs[0])
    else
      var r := FirstSome(xs[1..], f);
      assert forall i | 1 <= i < |xs| :: xs[i] == xs[1..][i - 1];
      r
  }

  /** Whatever `FirstSome` returns is one of the answers of `f`. */
  lemma FirstSomeFrom<T>(xs: seq<T>, f: T -> Option<Plan>)
    ensures FirstSome(xs, f).Some? ==> exists x | x in xs :: f(x) == FirstSome(xs, f)
  {
  }

  /** A number's unrevealed neighbours, with the flags it still needs, form a truthful group. */
  lemma NumberGroupHolds(snap: Snapshot, mines: set<Coord>, c: Coord)
    requires Consistent(snap, mines) && IsNumbered(snap, c)
    ensures Holds(Group(UnrevealedNeighbors(snap, c), NumFlagsLeft(snap, c)), mines)
  {
    FlagsLeftCountsHiddenMines(snap, mines, c);
  }

  // ---------------------------------------------------------------------------------------
  // obvious

  /** Flagged plus unrevealed neighbours make up the number: every unrevealed one is a mine. */
  predicate FlagRule(snap: Snapshot, c: Coord)
    requires IsNumbered(snap, c)
  {
    UnrevealedNeighbors(snap, c) != {} && |FlaggedNeighbors(snap, c)| + |UnrevealedNeighbors(snap, c)| == snap[c]
  }

  /** The flags already make up the number: the remaining unrevealed neighbours are safe. */
  predicate ChordRule(snap: Snapshot, c: Coord)
    requires IsNumbered(snap, c)
  {
    UnrevealedNeighbors(snap, c) != {} && |FlaggedNeighbors(snap, c)| == snap[c]
  }

  /** The two trivial moves at number `c`, given the flagged and unrevealed neighbours it sees:
      flag every unrevealed one when together with the flags they make up the number, else
      middle-click `c` when the flags alone make it up. */
  function ObviousRule(c: Coord, number: int, flagged: set<Coord>, unrevealed: set<Coord>): Option<Plan> {
    if unrevealed != {} && |flagged| + |unrevealed| == number then Some(Plan(RightClick, unrevealed))
    else if unrevealed != {} && |flagged| == number then Some(Plan(MiddleClick, {c}))
    else None
  }

  /** The trivial moves at one cell: flag every unrevealed neighbour, else middle-click the number. */
  function ObviousAt(snap: Snapshot, c: Coord): (r: Option<Plan>)
    ensures r.Some? <==> IsNumbered(snap, c) && (FlagRule(snap, c) || ChordRule(snap, c))
    ensures r.Some? && FlagRule(snap, c) ==> r.value == Plan(RightClick, UnrevealedNeighbors(snap, c))
    ensures r.Some? && !FlagRule(snap, c) ==> r.value == Plan(MiddleClick, {c})
  {
    if !IsNumbered(snap, c) then None
    else ObviousRule(c, snap[c], FlaggedNeighbors(snap, c), UnrevealedNeighbors(snap, c))
  }

  function Obvious(snap: Snapshot, order: seq<Coord>): Option<Plan> {
    FirstSome(order, c => ObviousAt(snap, c))
  }

  /** A truthful group needing no mine is safe, and one needing a mine in every cell is all mines. */
  lemma GroupVerdicts(g: Group, mines: set<Coord>)
    requires Holds(g, mines)
    ensures g.numMines == 0 ==> g.cells !! mines
    ensures g.numMines == |g.cells| ==> g.cells <= mines
  {
    if g.numMines == 0 {
      assert g.cells * mines == {};
      forall p | p in g.cells ensures p !in mines {
        assert p !in g.cells * mines;
      }
    }
    if g.numMines == |g.cells| {
      FullGroupAllMines(g, mines);
    }
  }

  lemma ObviousAtSound(snap: Snapshot, c: Coord, mines: set<Coord>)
    requires IsNumbered(snap, c) && ObviousAt(snap, c).Some?
    requires Holds(Group(UnrevealedNeighbors(snap, c), NumFlagsLeft(snap, c)), mines)
    ensures PlanSound(snap, ObviousAt(snap, c).value, mines)
  {
    GroupVerdicts(Group(UnrevealedNeighbors(snap, c), NumFlagsLeft(snap, c)), mines);
  }

  /** `obvious` is sound: its flags are mines and the number it chords has only safe unrevealed
      neighbours, whenever the placement agrees with the board. When it finds nothing, no
      numbered cell in `order` meets either rule. */
  lemma ObviousSound(snap: Snapshot, order: seq<Coord>, mines: set<Coord>)
    requires Consistent(snap, mines)
    ensures Obvious(snap, order).Some? ==> PlanSound(snap, Obvious(snap, order).value, mines)
    ensures Obvious(snap, order).None? ==>
              forall i | 0 <= i < |order| && IsNumbered(snap, order[i]) ::
                !FlagRule(snap, order[i]) && !ChordRule(snap, order[i])
  {
    var f := c => ObviousAt(snap, c);
    if Obvious(snap, order).Some? {
      var i :| 0 <= i < |order| && f(order[i]) == Obvious(snap, order);
      NumberGroupHolds(snap, mines, order[i]);
      ObviousAtSound(snap, order[i], mines);
    } else {
      assert forall i | 0 <= i < |order| :: f(order[i]).None?;
    }
  }

  // ---------------------------------------------------------------------------------------
  // immediate_grouping

  /** The other numbered cells whose unrevealed neighbours share a cell with `c`'s and lie
      inside them or around them: the subsets and supersets the neighbour index returns. */
  function Relatives(snap: Snapshot, c: Coord): set<Coord> {
    set n | n in snap && IsNumber(snap[n]) && n != c
            && UnrevealedNeighbors(snap, n) * UnrevealedNeighbors(snap, c) != {}
            && (UnrevealedNeighbors(snap, n) <= UnrevealedNeighbors(snap, c)
                || UnrevealedNeighbors(snap, c) <= UnrevealedNeighbors(snap, n))
  }

  /** The index entry for a cell, filtered to unrevealed neighbours, is its unrevealed set. */
  lemma CoordSetUnrevealed(snap: Snapshot, c: Coord)
    ensures CoordSet(snap, c, IsUnrevealed) == UnrevealedNeighbors(snap, c)
  {
    assert forall p :: p in CoordSet(snap, c, IsUnrevealed) <==> p in UnrevealedNeighbors(snap, c);
  }

  /** The index over the numbered cells, filtered to unrevealed neighbours: exact, keyed by
      the numbered cells, each with its unrevealed set. */
  lemma UnrevealedIndex(snap: Snapshot, numbered: seq<Coord>)
    requires forall n :: n in numbered <==> IsNumbered(snap, n)
    ensures var m := NeighborMap(snap, numbered, IsUnrevealed);
            && Valid(m)
            && (forall n :: n in m.coordSets <==> IsNumbered(snap, n))
            && forall n | n in m.coordSets :: m.coordSets[n] == UnrevealedNeighbors(snap, n)
  {
    var m := NeighborMap(snap, numbered, IsUnrevealed);
    forall n | n in m.coordSets ensures m.coordSets[n] == UnrevealedNeighbors(snap, n) {
      CoordSetUnrevealed(snap, n);
    }
  }

  /** The relatives are what the neighbour index over all numbered cells, filtered to
      unrevealed neighbours, reports as subsets or supersets of `c`. */
  lemma RelativesFromIndex(snap: Snapshot, numbered: seq<Coord>, c: Coord)
    requires forall n :: n in numbered <==> IsNumbered(snap, n)
    requires c in numbered
    ensures var m := NeighborMap(snap, numbered, IsUnrevealed);
            Subsets(m, c).value + Supersets(m, c).value == Relatives(snap, c)
  {
    var m := NeighborMap(snap, numbered, IsUnrevealed);
    UnrevealedIndex(snap, numbered);
    RelativesFromValidIndex(snap, m, c);
  }

  lemma RelativesFromValidIndex(snap: Snapshot, m: SubsetMap<Coord, Coord>, c: Coord)
    requires Valid(m) && c in m.coordSets
    requires forall n :: n in m.coordSets <==> IsNumbered(snap, n)
    requires forall n | n in m.coordSets :: m.coordSets[n] == UnrevealedNeighbors(snap, n)
    ensures Subsets(m, c).value + Supersets(m, c).value == Relatives(snap, c)
  {
    var sub := Subsets(m, c).value;
    var sup := Supersets(m, c).value;
    var rel := Relatives(snap, c);
    forall n | n in sub + sup ensures n in rel {
      assert IsNumbered(snap, n);
    }
    forall n | n in rel ensures n in sub + sup {
      assert n in m.coordSets;
    }
  }

  /** `c`'s unrevealed cells lie strictly inside neighbour `n`'s: if both need the same number
      of flags the cells only `n` sees are safe; if `n` needs exactly as many more flags as it
      has extra cells, they are all mines. */
  function ImmediatePair(snap: Snapshot, c: Coord, n: Coord): Option<Plan>
    requires IsNumbered(snap, c) && IsNumbered(snap, n)
  {
    PairRule(UnrevealedNeighbors(snap, c), NumFlagsLeft(snap, c), UnrevealedNeighbors(snap, n), NumFlagsLeft(snap, n))
  }

  /** The pair rule on `c`'s unrevealed cells `u` needing `need` flags and a relative's
      unrevealed cells `nu` needing `nNeed`: it applies when `u` lies strictly inside `nu`,
      and acts on the cells only the relative sees. */
  function PairRule(u: set<Coord>, need: int, nu: set<Coord>, nNeed: int): Option<Plan> {
    if u <= nu && u != nu then
      var unshared := nu - u;
      if need == nNeed then Some(Plan(Click, unshared))
      else if nNeed - need == |unshared| then Some(Plan(RightClick, unshared))
      else None
    else None
  }

  /** The plan from `c` and a relative `n` of it, if they make one. */
  function PairPlan(snap: Snapshot, c: Coord, n: Coord): Option<Plan> {
    if IsNumbered(snap, c) && n in Relatives(snap, c) then ImmediatePair(snap, c, n) else None
  }

  /** The first pair plan from `c`. The relatives are tried in `order` as well, standing for
      the iteration order of the Python set of numbered neighbours; the soundness lemmas hold
      for every `order`, so only which sound plan is found depends on it. */
  function ImmediateAt(snap: Snapshot, order: seq<Coord>, c: Coord): Option<Plan> {
    if !IsNumbered(snap, c) then None
    else FirstSome(order, n => PairPlan(snap, c, n))
  }

  function ImmediateGrouping(snap: Snapshot, order: seq<Coord>): Option<Plan> {
    FirstSome(order, c => ImmediateAt(snap, order, c))
  }

  lemma ImmediatePairSound(snap: Snapshot, c: Coord, n: Coord, mines: set<Coord>)
    requires IsNumbered(snap, c) && IsNumbered(snap, n)
    requires Holds(Group(UnrevealedNeighbors(snap, c), NumFlagsLeft(snap, c)), mines)
    requires Holds(Group(UnrevealedNeighbors(snap, n), NumFlagsLeft(snap, n)), mines)
    requires ImmediatePair(snap, c, n).Some?
    ensures PlanSound(snap, ImmediatePair(snap, c, n).value, mines)
  {
    var a := Group(UnrevealedNeighbors(snap, n), NumFlagsLeft(snap, n));
    var b := Group(UnrevealedNeighbors(snap, c), NumFlagsLeft(snap, c));
    DifferenceSound(a, b, mines);
    GroupVerdicts(Difference(a, b), mines);
  }

  /** `immediate_grouping` is sound in every placement that agrees with the board. */
  lemma ImmediateGroupingSound(snap: Snapshot, order: seq<Coord>, mines: set<Coord>)
    requires Consistent(snap, mines)
    ensures ImmediateGrouping(snap, order).Some? ==>
              PlanSound(snap, ImmediateGrouping(snap, order).value, mines)
  {
    if ImmediateGrouping(snap, order).Some? {
      var f := c => ImmediateAt(snap, order, c);
      var i :| 0 <= i < |order| && f(order[i]) == ImmediateGrouping(snap, order);
      ImmediateAtSound(snap, order, order[i], mines);
    }
  }

  lemma ImmediateAtSound(snap: Snapshot, order: seq<Coord>, c: Coord, mines: set<Coord>)
    requires Consistent(snap, mines) && ImmediateAt(snap, order, c).Some?
    ensures PlanSound(snap, ImmediateAt(snap, order, c).value, mines)
  {
    var g := n => PairPlan(snap, c, n);
    var j :| 0 <= j < |order| && g(order[j]) == ImmediateAt(snap, order, c);
    NumberGroupHolds(snap, mines, c);
    NumberGroupHolds(snap, mines, order[j]);
    ImmediatePairSound(snap, c, order[j], mines);
  }

  // ---------------------------------------------------------------------------------------
  // obvious and immediate_grouping over the neighbour iterator as written

  /** What one pass over the result of `get_neighbors()` sees after `earlierPasses` passes.
      That result is Python 3's `filter` object, an iterator: the first pass sees every
      neighbour, and every later pass sees none. */
  function NeighborPass(snap: Snapshot, c: Coord, earlierPasses: nat): set<Coord> {
    if earlierPasses == 0 then NeighborsIn(snap, c) else {}
  }

  /** The board holds `p` and shows type `t` there. */
  predicate Shows(snap: Snapshot, p: Coord, t: int) {
    p in snap && snap[p] == t
  }

  /** The flagged cells a comprehension over the neighbour iterator finds on a given pass. */
  function FlaggedSeen(snap: Snapshot, c: Coord, earlierPasses: nat): set<Coord> {
    set p | p in NeighborPass(snap, c, earlierPasses) && Shows(snap, p, TypeFlag)
  }

  /** The unrevealed cells a comprehension over the neighbour iterator finds on a given pass. */
  function UnrevealedSeen(snap: Snapshot, c: Coord, earlierPasses: nat): set<Coord> {
    set p | p in NeighborPass(snap, c, earlierPasses) && Shows(snap, p, TypeUnrevealed)
  }

  /** The first pass finds the real flagged neighbours; the second finds nothing. */
  lemma PassesAsWritten(snap: Snapshot, c: Coord)
    ensures FlaggedSeen(snap, c, 0) == FlaggedNeighbors(snap, c)
    ensures UnrevealedSeen(snap, c, 1) == {}
  {
    assert forall p :: p in FlaggedSeen(snap, c, 0) <==> p in FlaggedNeighbors(snap, c);
  }

  /** `obvious` at one cell as written: `flagged` takes the first pass over the neighbours and
      `unrevealed` the second, which finds nothing, so neither rule ever fires. */
  function ObviousAtAsWritten(snap: Snapshot, c: Coord): (r: Option<Plan>)
    ensures r.None?
  {
    if !IsNumbered(snap, c) then None
    else
      PassesAsWritten(snap, c);
      ObviousRule(c, snap[c], FlaggedSeen(snap, c, 0), UnrevealedSeen(snap, c, 1))
  }

  function ObviousAsWritten(snap: Snapshot, order: seq<Coord>): Option<Plan> {
    FirstSome(order, c => ObviousAtAsWritten(snap, c))
  }

  /** As written, `obvious` never plans, while on the board `1 #` the rule over the real
      unrevealed neighbours flags the hidden cell. */
  lemma ObviousAsWrittenNeverPlans(snap: Snapshot, order: seq<Coord>)
    ensures ObviousAsWritten(snap, order).None?
    ensures var row := map[(0, 0) := 1, (1, 0) := TypeUnrevealed];
            && ObviousAsWritten(row, [(0, 0)]).None?
            && Obvious(row, [(0, 0)]) == Some(Plan(RightClick, {(1, 0)}))
  {
    var row := map[(0, 0) := 1, (1, 0) := TypeUnrevealed];
    assert NeighborsIn(row, (0, 0)) == {(1, 0)};
    assert UnrevealedNeighbors(row, (0, 0)) == {(1, 0)};
    assert FlaggedNeighbors(row, (0, 0)) == {};
    assert ObviousAt(row, (0, 0)) == Some(Plan(RightClick, {(1, 0)}));
    assert |[(0, 0)][1..]| == 0;
  }

  /** The pair rule as written: `necessary` counts the flags of the first pass over `c`'s
      neighbours, but `unrevealed` is the exhausted second pass and is empty. So every relative
      with an unrevealed cell qualifies, and the plan acts on all of the relative's unrevealed
      cells, those it shares with `c` included. */
  function ImmediatePairAsWritten(snap: Snapshot, c: Coord, n: Coord): (r: Option<Plan>)
    requires IsNumbered(snap, c) && IsNumbered(snap, n)
    ensures r.Some? ==> r.value.cells == UnrevealedNeighbors(snap, n)
    ensures UnrevealedNeighbors(snap, n) != {} && NumFlagsLeft(snap, c) == NumFlagsLeft(snap, n) ==>
              r == Some(Plan(Click, UnrevealedNeighbors(snap, n)))
  {
    PassesAsWritten(snap, c);
    PairRule(UnrevealedSeen(snap, c, 1), snap[c] - |FlaggedSeen(snap, c, 0)|, UnrevealedNeighbors(snap, n), NumFlagsLeft(snap, n))
  }

  function PairPlanAsWritten(snap: Snapshot, c: Coord, n: Coord): Option<Plan> {
    if IsNumbered(snap, c) && n in Relatives(snap, c) then ImmediatePairAsWritten(snap, c, n) else None
  }

  function ImmediateAtAsWritten(snap: Snapshot, order: seq<Coord>, c: Coord): Option<Plan> {
    if !IsNumbered(snap, c) then None
    else FirstSome(order, n => PairPlanAsWritten(snap, c, n))
  }

  function ImmediateGroupingAsWritten(snap: Snapshot, order: seq<Coord>): Option<Plan> {
    FirstSome(order, c => ImmediateAtAsWritten(snap, order, c))
  }

  /** The row `1 # 1 #` with its mine under the first `#`. As written, the pair rule clicks both
      unrevealed cells of the second `1`, the mine among them. Over the real unrevealed cells
      it clicks only the last cell, which is safe. */
  lemma ImmediateAsWrittenClicksMine()
    ensures var row := map[(0, 0) := 1, (1, 0) := TypeUnrevealed, (2, 0) := 1, (3, 0) := TypeUnrevealed];
            && Consistent(row, {(1, 0)})
            && ImmediateGroupingAsWritten(row, [(0, 0), (2, 0)]) == Some(Plan(Click, {(1, 0), (3, 0)}))
            && !PlanSound(row, Plan(Click, {(1, 0), (3, 0)}), {(1, 0)})
            && ImmediateGrouping(row, [(0, 0), (2, 0)]) == Some(Plan(Click, {(3, 0)}))
  {
    var row := map[(0, 0) := 1, (1, 0) := TypeUnrevealed, (2, 0) := 1, (3, 0) := TypeUnrevealed];
    RowOfFour(row);
    RowAsWritten(row);
    RowCorrected(row);
    assert (1, 0) in {(1, 0), (3, 0)} * {(1, 0)};
  }

  lemma RowAsWritten(row: Snapshot)
    requires row == map[(0, 0) := 1, (1, 0) := TypeUnrevealed, (2, 0) := 1, (3, 0) := TypeUnrevealed]
    ensures ImmediateGroupingAsWritten(row, [(0, 0), (2, 0)]) == Some(Plan(Click, {(1, 0), (3, 0)}))
  {
    RowOfFour(row);
    RowRelatives(row);
    var plan := Some(Plan(Click, {(1, 0), (3, 0)}));
    assert PairPlanAsWritten(row, (0, 0), (2, 0)) == plan;
    FirstSomePair((0, 0), (2, 0), n => PairPlanAsWritten(row, (0, 0), n));
    assert ImmediateAtAsWritten(row, [(0, 0), (2, 0)], (0, 0)) == plan;
    FirstSomePair((0, 0), (2, 0), c => ImmediateAtAsWritten(row, [(0, 0), (2, 0)], c));
  }

  lemma RowCorrected(row: Snapshot)
    requires row == map[(0, 0) := 1, (1, 0) := TypeUnrevealed, (2, 0) := 1, (3, 0) := TypeUnrevealed]
    ensures ImmediateGrouping(row, [(0, 0), (2, 0)]) == Some(Plan(Click, {(3, 0)}))
  {
    RowOfFour(row);
    RowRelatives(row);
    var plan := Some(Plan(Click, {(3, 0)}));
    assert {(1, 0), (3, 0)} - {(1, 0)} == {(3, 0)};
    assert PairPlan(row, (0, 0), (2, 0)) == plan;
    FirstSomePair((0, 0), (2, 0), n => PairPlan(row, (0, 0), n));
    assert ImmediateAt(row, [(0, 0), (2, 0)], (0, 0)) == plan;
    FirstSomePair((0, 0), (2, 0), c => ImmediateAt(row, [(0, 0), (2, 0)], c));
  }

  /** The second `1` is the first `1`'s relative; no cell is its own. */
  lemma RowRelatives(row: Snapshot)
    requires row == map[(0, 0) := 1, (1, 0) := TypeUnrevealed, (2, 0) := 1, (3, 0) := TypeUnrevealed]
    ensures (2, 0) in Relatives(row, (0, 0)) && (0, 0) !in Relatives(row, (0, 0))
  {
    RowOfFour(row);
  }

  /** `FirstSome` over two candidates. */
  lemma FirstSomePair<T>(a: T, b: T, f: T -> Option<Plan>)
    ensures FirstSome([a, b], f) == if f(a).Some? then f(a) else f(b)
  {
    assert [a, b][1..] == [b];
    assert [b][1..] == [];
  }

  /** The neighbours, unrevealed neighbours and flags of the row `1 # 1 #`, and the placement
      with the mine under the first `#` agreeing with it. */
  lemma RowOfFour(row: Snapshot)
    requires row == map[(0, 0) := 1, (1, 0) := TypeUnrevealed, (2, 0) := 1, (3, 0) := TypeUnrevealed]
    ensures NeighborsIn(row, (0, 0)) == {(1, 0)} && NeighborsIn(row, (2, 0)) == {(1, 0), (3, 0)}
    ensures UnrevealedNeighbors(row, (0, 0)) == {(1, 0)}
    ensures UnrevealedNeighbors(row, (2, 0)) == {(1, 0), (3, 0)}
    ensures FlaggedNeighbors(row, (0, 0)) == {} && FlaggedNeighbors(row, (2, 0)) == {}
    ensures Consistent(row, {(1, 0)})
  {
    RowOfFourNeighbors(row.Keys);
    assert NeighborsIn(row, (0, 0)) * {(1, 0)} == {(1, 0)};
    assert NeighborsIn(row, (2, 0)) * {(1, 0)} == {(1, 0)};
    RowOfFourCells(row);
  }

  /** On the row (0,0) .. (3,0), the first cell's only neighbour is (1,0) and the third cell's
      are (1,0) and (3,0). */
  lemma RowOfFourNeighbors(keys: set<Coord>)
    requires keys == {(0, 0), (1, 0), (2, 0), (3, 0)}
    ensures forall p :: p in keys && Adjacent((0, 0), p) <==> p == (1, 0)
    ensures forall p :: p in keys && Adjacent((2, 0), p) <==> p == (1, 0) || p == (3, 0)
  {
  }

  lemma RowOfFourCells(row: Snapshot)
    requires row == map[(0, 0) := 1, (1, 0) := TypeUnrevealed, (2, 0) := 1, (3, 0) := TypeUnrevealed]
    ensures forall p | p in row :: (p in {(0, 0), (2, 0)} && row[p] == 1) || (p in {(1, 0), (3, 0)} && row[p] == TypeUnrevealed)
  {
  }

  // ---------------------------------------------------------------------------------------
  // indirect_grouping

  /** Numbered cells other than `c` sharing a cell with `c`'s unrevealed set and containing it. */
  function SupersetsOf(snap: Snapshot, c: Coord): set<Coord> {
    set n | n in snap && IsNumber(snap[n]) && n != c
            && UnrevealedNeighbors(snap, n) * UnrevealedNeighbors(snap, c) != {}
            && UnrevealedNeighbors(snap, c) <= UnrevealedNeighbors(snap, n)
  }

  /** Numbered cells other than `n` sharing a cell with `n`'s unrevealed set and lying inside it. */
  function SubsetsOf(snap: Snapshot, n: Coord): set<Coord> {
    set i | i in snap && IsNumber(snap[i]) && i != n
            && UnrevealedNeighbors(snap, i) * UnrevealedNeighbors(snap, n) != {}
            && UnrevealedNeighbors(snap, i) <= UnrevealedNeighbors(snap, n)
  }

  /** Cell `c` and an insightful neighbour `i` see disjoint parts of neighbour `n`'s unrevealed
      cells; the cells only `n` sees are staked. When `n`'s need is used up by the other two they
      are safe, and when it equals their count they are all mines. */
  function IndirectTriple(snap: Snapshot, c: Coord, n: Coord, i: Coord): Option<Plan>
    requires IsNumbered(snap, c) && IsNumbered(snap, n) && IsNumbered(snap, i)
  {
    StakedPlan(Group(UnrevealedNeighbors(snap, c), NumFlagsLeft(snap, c)),
               Group(UnrevealedNeighbors(snap, i), NumFlagsLeft(snap, i)),
               Group(UnrevealedNeighbors(snap, n), NumFlagsLeft(snap, n)))
  }

  /** The rule on the groups of the three numbers: `c`'s group `cg` and `i`'s group `ig` must
      not overlap, and the staked cells are the rest of `n`'s group `ng`. */
  function StakedPlan(cg: Group, ig: Group, ng: Group): Option<Plan> {
    if cg.cells * ig.cells != {} then None
    else
      var staked := ng.cells - cg.cells - ig.cells;
      if staked == {} then None
      else
        var after := ng.numMines - cg.numMines - ig.numMines;
        if after == 0 then Some(Plan(Click, staked))
        else if after == |staked| then Some(Plan(RightClick, staked))
        else None
  }

  /** The plan from `c`, a superset `n` of it and an insightful subset `i` of `n`, if they
      form such a triple. */
  function TriplePlan(snap: Snapshot, c: Coord, n: Coord, i: Coord): Option<Plan> {
    if IsNumbered(snap, c) && n in SupersetsOf(snap, c) && i in SubsetsOf(snap, n) && i != c
    then IndirectTriple(snap, c, n, i)
    else None
  }

  /** The first plan from `c` and its superset `n`, trying every subset of `n` in `order`,
      which stands for the iteration order of the Python set of subsets as well. */
  function NeighborPlan(snap: Snapshot, order: seq<Coord>, c: Coord, n: Coord): Option<Plan> {
    if !IsNumbered(snap, c) || n !in SupersetsOf(snap, c) then None
    else FirstSome(order, i => TriplePlan(snap, c, n, i))
  }

  /** The first triple plan from `c`. Its supersets are tried in `order`, standing for the
      iteration order of the Python set of numbered neighbours; the soundness lemmas hold for
      every `order`. */
  function IndirectAt(snap: Snapshot, order: seq<Coord>, c: Coord): Option<Plan> {
    if !IsNumbered(snap, c) then None
    else FirstSome(order, n => NeighborPlan(snap, order, c, n))
  }

  function IndirectGrouping(snap: Snapshot, order: seq<Coord>): Option<Plan> {
    FirstSome(order, c => IndirectAt(snap, order, c))
  }

  lemma IndirectTripleSound(snap: Snapshot, c: Coord, n: Coord, i: Coord, mines: set<Coord>)
    requires IsNumbered(snap, c) && IsNumbered(snap, n) && IsNumbered(snap, i)
    requires Holds(Group(UnrevealedNeighbors(snap, c), NumFlagsLeft(snap, c)), mines)
    requires Holds(Group(UnrevealedNeighbors(snap, i), NumFlagsLeft(snap, i)), mines)
    requires Holds(Group(UnrevealedNeighbors(snap, n), NumFlagsLeft(snap, n)), mines)
    requires UnrevealedNeighbors(snap, c) <= UnrevealedNeighbors(snap, n)
    requires UnrevealedNeighbors(snap, i) <= UnrevealedNeighbors(snap, n)
    requires IndirectTriple(snap, c, n, i).Some?
    ensures PlanSound(snap, IndirectTriple(snap, c, n, i).value, mines)
  {
    StakedPlanSound(snap, Group(UnrevealedNeighbors(snap, c), NumFlagsLeft(snap, c)),
                    Group(UnrevealedNeighbors(snap, i), NumFlagsLeft(snap, i)),
                    Group(UnrevealedNeighbors(snap, n), NumFlagsLeft(snap, n)), mines);
  }

  /** The staked cells of truthful groups are safe when the outer need is used up and mines
      when it equals their count. */
  lemma StakedPlanSound(snap: Snapshot, cg: Group, ig: Group, ng: Group, mines: set<Coord>)
    requires Holds(cg, mines) && Holds(ig, mines) && Holds(ng, mines)
    requires cg.cells <= ng.cells && ig.cells <= ng.cells
    requires StakedPlan(cg, ig, ng).Some?
    ensures PlanSound(snap, StakedPlan(cg, ig, ng).value, mines)
  {
    assert cg.cells !! ig.cells by {
      forall p | p in cg.cells ensures p !in ig.cells {
        assert p !in cg.cells * ig.cells;
      }
    }
    var d := StakedGroup(cg, ig, ng, mines);
    GroupVerdicts(d, mines);
  }

  /** Two truthful groups over disjoint parts of a third leave a truthful group over the rest. */
  lemma StakedGroup(cg: Group, ig: Group, ng: Group, mines: set<Coord>) returns (d: Group)
    requires Holds(cg, mines) && Holds(ig, mines) && Holds(ng, mines)
    requires cg.cells !! ig.cells && cg.cells <= ng.cells && ig.cells <= ng.cells
    ensures d == Group(ng.cells - cg.cells - ig.cells, ng.numMines - cg.numMines - ig.numMines)
    ensures Holds(d, mines)
  {
    var both := DisjointJoin(cg, ig, mines);
    DifferenceSound(ng, both, mines);
    d := Difference(ng, both);
    assert d.cells == ng.cells - cg.cells - ig.cells;
  }

  /** Two truthful groups over disjoint cells join into one truthful group. */
  lemma DisjointJoin(a: Group, b: Group, mines: set<Coord>) returns (r: Group)
    requires a.cells !! b.cells && Holds(a, mines) && Holds(b, mines)
    ensures r == Group(a.cells + b.cells, a.numMines + b.numMines) && Holds(r, mines)
  {
    r := Group(a.cells + b.cells, a.numMines + b.numMines);
    assert r.cells * mines == (a.cells * mines) + (b.cells * mines);
    DisjointUnionCard(a.cells * mines, b.cells * mines);
  }

  lemma IndirectStep(snap: Snapshot, c: Coord, n: Coord, i: Coord, mines: set<Coord>)
    requires Consistent(snap, mines) && IsNumbered(snap, c)
    requires n in SupersetsOf(snap, c) && i in SubsetsOf(snap, n)
    requires IndirectTriple(snap, c, n, i).Some?
    ensures PlanSound(snap, IndirectTriple(snap, c, n, i).value, mines)
  {
    NumberGroupHolds(snap, mines, c);
    NumberGroupHolds(snap, mines, n);
    NumberGroupHolds(snap, mines, i);
    IndirectTripleSound(snap, c, n, i, mines);
  }

  /** `indirect_grouping` is sound in every placement that agrees with the board. */
  lemma IndirectGroupingSound(snap: Snapshot, order: seq<Coord>, mines: set<Coord>)
    requires Consistent(snap, mines)
    ensures IndirectGrouping(snap, order).Some? ==>
              PlanSound(snap, IndirectGrouping(snap, order).value, mines)
  {
    if IndirectGrouping(snap, order).Some? {
      var f := c => IndirectAt(snap, order, c);
      var k :| 0 <= k < |order| && f(order[k]) == IndirectGrouping(snap, order);
      IndirectAtSound(snap, order, order[k], mines);
    }
  }

  lemma IndirectAtSound(snap: Snapshot, order: seq<Coord>, c: Coord, mines: set<Coord>)
    requires Consistent(snap, mines) && IndirectAt(snap, order, c).Some?
    ensures PlanSound(snap, IndirectAt(snap, order, c).value, mines)
  {
    var g := n => NeighborPlan(snap, order, c, n);
    var j :| 0 <= j < |order| && g(order[j]) == IndirectAt(snap, order, c);
    IndirectNeighborSound(snap, order, c, order[j], mines);
  }

  lemma IndirectNeighborSound(snap: Snapshot, order: seq<Coord>, c: Coord, n: Coord, mines: set<Coord>)
    requires Consistent(snap, mines) && NeighborPlan(snap, order, c, n).Some?
    ensures PlanSound(snap, NeighborPlan(snap, order, c, n).value, mines)
  {
    var h := i => TriplePlan(snap, c, n, i);
    var l :| 0 <= l < |order| && h(order[l]) == NeighborPlan(snap, order, c, n);
    IndirectStep(snap, c, n, order[l], mines);
  }

  // ---------------------------------------------------------------------------------------
  // first_click and the planner priority

  /** The cells on the edge of a `w` by `h` board. */
  function Border(w: int, h: int): set<Coord> {
    set p | p in Coords(w, h) && (p.0 == 0 || p.0 == w - 1 || p.1 == 0 || p.1 == h - 1)
  }

  /** On the first turn, when nothing is revealed (a flag counts as revealed), click one edge
      cell, chosen at random; otherwise there is no plan. */
  method FirstClick(snap: Snapshot, w: int, h: int) returns (r: Option<Plan>)
    requires w >= 1 && h >= 1
    ensures r.Some? <==> forall p | p in snap :: IsUnrevealed(snap[p])
    ensures r.Some? ==>
              && r.value.action == Click
              && exists p :: r.value.cells == {p} && 0 <= p.0 < w && 0 <= p.1 < h
                             && (p.0 == 0 || p.0 == w - 1 || p.1 == 0 || p.1 == h - 1)
  {
    if exists p | p in snap :: IsRevealed(snap[p]) {
      return None;
    }
    var edges := Border(w, h);
    CoordsMembership(w, h, (0, 0));
    assert (0, 0) in edges;
    var p :| p in edges;
    CoordsMembership(w, h, p);
    r := Some(Plan(Click, {p}));
  }

  /** Confident plans win; one of them is taken (the one nearest the last move, or a random
      one when there is no last move). Guess planners are consulted, in order, only when no
      confident planner found anything and low-confidence play is enabled. */
  function NextMoves(confident: seq<Option<Plan>>, pick: nat, disableLowConfidence: bool,
                     guesses: seq<Option<Plan>>): (r: Option<Plan>)
    ensures (exists i | 0 <= i < |confident| :: confident[i].Some?) ==> r.Some? && r in confident
    ensures r.Some? && r !in confident ==>
              && !disableLowConfidence
              && r in guesses
              && forall i | 0 <= i < |confident| :: confident[i].None?
    ensures (forall i | 0 <= i < |confident| :: confident[i].None?) && !disableLowConfidence ==>
              (r.None? <==> forall i | 0 <= i < |guesses| :: guesses[i].None?)
    ensures (forall i | 0 <= i < |confident| :: confident[i].None?) && !disableLowConfidence ==>
              r == FirstSome(guesses, p => p)
  {
    var plans := SomeSeq(confident);
    if |plans| > 0 then
      plans[pick % |plans|]
    else if !disableLowConfidence then
      FirstSomeFrom(guesses, p => p);
      FirstSome(guesses, p => p)
    else None
  }

  /** The confident plans that were found, in planner order. */
  function {:induction false} SomeSeq(xs: seq<Option<Plan>>): (r: seq<Option<Plan>>)
    ensures forall p | p in r :: p.Some? && p in xs
    ensures (exists i | 0 <= i < |xs| :: xs[i].Some?) <==> |r| > 0
    decreases |xs|
  {
    if xs == [] then []
    else
      var rest := SomeSeq(xs[1..]);
      assert forall i | 1 <= i < |xs| :: xs[i] == xs[1..][i - 1];
      if xs[0].Some? then [xs[0]] + rest else rest
  }

  /** Some cell of the board is revealed (a flag counts). */
  predicate SomethingRevealed(snap: Snapshot) {
    exists p | p in snap :: IsRevealed(snap[p])
  }

  /** One of the three deduction rules found a plan. */
  predicate Deduced(snap: Snapshot, order: seq<Coord>) {
    Obvious(snap, order).Some? || ImmediateGrouping(snap, order).Some? || IndirectGrouping(snap, order).Some?
  }

  /** One turn of the director: every confident planner is asked, then the priority rule picks.
      Asking `obvious` already middle-clicks the number it would chord, whichever plan is then
      taken; that chord is `chord`. Once something is revealed, a deduction rule that finds a
      plan makes the turn take a sound plan, whatever the low-confidence setting, and when
      none finds one only a guess can be taken. The chord is sound as well. */
  method GetNextMoves(snap: Snapshot, order: seq<Coord>, w: int, h: int, pick: nat,
                      disableLowConfidence: bool, guesses: seq<Option<Plan>>)
    returns (r: Option<Plan>, chord: Option<Coord>)
    requires w >= 1 && h >= 1
    ensures SomethingRevealed(snap) && Deduced(snap, order) ==>
              r.Some? && forall mines | Consistent(snap, mines) :: PlanSound(snap, r.value, mines)
    ensures SomethingRevealed(snap) && !Deduced(snap, order) && r.Some? ==>
              !disableLowConfidence && r in guesses
    ensures r.Some? && disableLowConfidence && SomethingRevealed(snap) ==>
              forall mines | Consistent(snap, mines) :: PlanSound(snap, r.value, mines)
    ensures chord.Some? <==> Obvious(snap, order).Some? && Obvious(snap, order).value.action == MiddleClick
    ensures chord.Some? ==>
              && Obvious(snap, order).value.cells == {chord.value}
              && forall mines | Consistent(snap, mines) :: UnrevealedNeighbors(snap, chord.value) !! mines
  {
    var obvious := Obvious(snap, order);
    chord := None;
    if obvious.Some? && obvious.value.action == MiddleClick {
      ObviousChord(snap, order);
      var c :| c in obvious.value.cells;
      chord := Some(c);
      forall mines | Consistent(snap, mines)
        ensures UnrevealedNeighbors(snap, c) !! mines
      {
        ObviousSound(snap, order, mines);
      }
    }
    var first := FirstClick(snap, w, h);
    var confident := [obvious, ImmediateGrouping(snap, order), IndirectGrouping(snap, order), first];
    r := NextMoves(confident, pick, disableLowConfidence, guesses);
    if SomethingRevealed(snap) {
      assert first.None?;
      if r.Some? && r in confident {
        forall mines | Consistent(snap, mines)
          ensures PlanSound(snap, r.value, mines)
        {
          ObviousSound(snap, order, mines);
          ImmediateGroupingSound(snap, order, mines);
          IndirectGroupingSound(snap, order, mines);
        }
      }
      if Deduced(snap, order) {
        assert confident[0].Some? || confident[1].Some? || confident[2].Some?;
      }
    }
  }

  /** A middle-click plan of `obvious` chords exactly one number. */
  lemma ObviousChord(snap: Snapshot, order: seq<Coord>)
    requires Obvious(snap, order).Some? && Obvious(snap, order).value.action == MiddleClick
    ensures exists c :: Obvious(snap, order).value.cells == {c}
  {
    var f := c => ObviousAt(snap, c);
    var i :| 0 <= i < |order| && f(order[i]) == Obvious(snap, order);
    assert Obvious(snap, order).value.cells == {order[i]};
  }
}
