/** The subset index (minesweeper/datastructures.py): objects registered with a set of
    coordinates, a reverse index from each coordinate to the objects holding it, and queries for
    the registered objects whose coordinates lie inside, or around, another's. */
module SubsetMaps {
  import opened Common
  import opened Grid
  import opened DirectorBase

  /** `coordSets` maps each object to its coordinates; `lookup` maps a coordinate to the objects
      it was registered under (a missing entry reads as the empty set). */
  datatype SubsetMap<O, C> = SubsetMap(coordSets: map<O, set<C>>, lookup: map<C, set<O>>)

  function Empty<O, C>(): SubsetMap<O, C> {
    SubsetMap(map[], map[])
  }

  /** Every coordinate of every registered object lists that object. */
  ghost predicate Complete<O, C>(m: SubsetMap<O, C>) {
    forall o | o in m.coordSets :: forall c | c in m.coordSets[o] :: c in m.lookup && o in m.lookup[c]
  }

  /** Every listing in the reverse index is backed by the object's current coordinates. */
  ghost predicate Sound<O, C>(m: SubsetMap<O, C>) {
    forall c | c in m.lookup :: forall o | o in m.lookup[c] :: o in m.coordSets && c in m.coordSets[o]
  }

  ghost predicate Valid<O, C>(m: SubsetMap<O, C>) {
    Complete(m) && Sound(m)
  }

  /** Register `o` with coordinates `s`, listing it under each of them and leaving the
      listings under every other coordinate as they were. */
  function Add<O, C>(m: SubsetMap<O, C>, o: O, s: set<C>): (r: SubsetMap<O, C>)
    ensures r.coordSets == m.coordSets[o := s]
    ensures forall c | c in s :: c in r.lookup && o in r.lookup[c]
    ensures forall c | c in m.lookup && c !in s :: c in r.lookup && r.lookup[c] == m.lookup[c]
  {
    var lookup := map c | c in m.lookup.Keys + s ::
      (if c in m.lookup then m.lookup[c] else {}) + (if c in s then {o} else {});
    SubsetMap(m.coordSets[o := s], lookup)
  }

  /** Entries from an earlier registration of `o` are never removed, so the index stays exact
      only when `o` is new or its old coordinates are among the new ones; completeness survives
      every addition. */
  lemma AddKeepsIndex<O, C>(m: SubsetMap<O, C>, o: O, s: set<C>)
    ensures Complete(m) ==> Complete(Add(m, o, s))
    ensures Valid(m) && (o in m.coordSets ==> m.coordSets[o] <= s) ==> Valid(Add(m, o, s))
  {
  }

  /** Re-registering an object with fewer coordinates leaves a stale listing behind. */
  lemma StaleListing()
    ensures var m := Add(Add(Empty<int, int>(), 1, {7}), 1, {});
            !Sound(m)
  {
    var m := Add(Add(Empty<int, int>(), 1, {7}), 1, {});
    assert 7 in m.lookup && 1 in m.lookup[7];
  }

  /** The objects listed under any coordinate of `o`; `None` when `o` was never registered.
      In an exact index these are precisely the objects whose coordinates meet `o`'s. */
  function Shares<O, C>(m: SubsetMap<O, C>, o: O): (r: Option<set<O>>)
    ensures r.None? <==> o !in m.coordSets
    ensures r.Some? && Valid(m) ==>
              r.value == set p | p in m.coordSets && m.coordSets[p] * m.coordSets[o] != {}
  {
    if o !in m.coordSets then None
    else
      var r := set c, p | c in m.coordSets[o] && c in m.lookup && p in m.lookup[c] :: p;
      SharesExact(m, o, r);
      Some(r)
  }

  lemma SharesExact<O, C>(m: SubsetMap<O, C>, o: O, r: set<O>)
    requires o in m.coordSets
    requires r == set c, p | c in m.coordSets[o] && c in m.lookup && p in m.lookup[c] :: p
    ensures Valid(m) ==> r == set p | p in m.coordSets && m.coordSets[p] * m.coordSets[o] != {}
  {
    if Valid(m) {
      var meets := set p | p in m.coordSets && m.coordSets[p] * m.coordSets[o] != {};
      forall p | p in meets ensures p in r {
        var c :| c in m.coordSets[p] * m.coordSets[o];
        assert c in m.lookup && p in m.lookup[c];
      }
      forall p | p in r ensures p in meets {
        var c :| c in m.coordSets[o] && c in m.lookup && p in m.lookup[c];
        assert p in m.coordSets && c in m.coordSets[p];
        assert c in m.coordSets[p] * m.coordSets[o];
      }
    }
  }

  /** The other registered objects sharing a coordinate with `o` whose coordinates all lie in `o`'s. */
  function Subsets<O, C>(m: SubsetMap<O, C>, o: O): (r: Option<set<O>>)
    ensures r.None? <==> o !in m.coordSets
    ensures r.Some? && Valid(m) ==>
              r.value == set p | p in m.coordSets && p != o && m.coordSets[p] * m.coordSets[o] != {}
                                 && m.coordSets[p] <= m.coordSets[o]
  {
    match Shares(m, o)
    case None => None
    case Some(shares) =>
      Some(set p | p in shares && p != o && p in m.coordSets && m.coordSets[p] <= m.coordSets[o])
  }

  /** The other registered objects sharing a coordinate with `o` whose coordinates include all of `o`'s. */
  function Supersets<O, C>(m: SubsetMap<O, C>, o: O): (r: Option<set<O>>)
    ensures r.None? <==> o !in m.coordSets
    ensures r.Some? && Valid(m) ==>
              r.value == set p | p in m.coordSets && p != o && m.coordSets[p] * m.coordSets[o] != {}
                                 && m.coordSets[o] <= m.coordSets[p]
  {
    match Shares(m, o)
    case None => None
    case Some(shares) =>
      Some(set p | p in shares && p != o && p in m.coordSets && m.coordSets[o] <= m.coordSets[p])
  }

  /** In an exact index, `p` is among `o`'s subsets exactly when `o` is among `p`'s supersets. */
  lemma SubsetSupersetDuality<O, C>(m: SubsetMap<O, C>, o: O, p: O)
    requires Valid(m) && o in m.coordSets && p in m.coordSets && p != o
    ensures p in Subsets(m, o).value <==> o in Supersets(m, p).value
  {
  }

  // ---------------------------------------------------------------------------------------
  // The neighbour index the first director builds over numbered cells

  /** The neighbours of `c` whose cell type passes the filter. */
  function CoordSet(snap: Snapshot, c: Coord, keep: int -> bool): (r: set<Coord>)
    ensures |r| <= 8
    ensures forall n :: n in r <==> n in snap && Adjacent(c, n) && keep(snap[n])
  {
    var r := set n | n in NeighborsIn(snap, c) && keep(snap[n]);
    SubsetCard(r, NeighborsIn(snap, c));
    r
  }

  /** The index over `cells`, each registered with its filtered neighbours. It is always exact,
      because an object registered twice gets the same coordinates both times. */
  function NeighborMap(snap: Snapshot, cells: seq<Coord>, keep: int -> bool): (r: SubsetMap<Coord, Coord>)
    ensures Valid(r)
    ensures forall c :: c in r.coordSets <==> c in cells
    ensures forall c | c in r.coordSets :: r.coordSets[c] == CoordSet(snap, c, keep)
  {
    RegisterAll(cells, c => CoordSet(snap, c, keep))
  }

  /** Registering each object of `objs` in order, with the coordinates `sets` gives it. */
  function {:induction false} RegisterAll<O(!new), C>(objs: seq<O>, sets: O -> set<C>): (r: SubsetMap<O, C>)
    ensures Valid(r)
    ensures forall o :: o in r.coordSets <==> o in objs
    ensures forall o | o in r.coordSets :: r.coordSets[o] == sets(o)
    decreases |objs|
  {
    if objs == [] then Empty()
    else
      var front, last := objs[..|objs| - 1], objs[|objs| - 1];
      var init := RegisterAll(front, sets);
      assert objs == front + [last];
      ReRegisterSame(init, last, sets(last));
      assert forall o :: o in objs <==> o in front || o == last;
      Add(init, last, sets(last))
  }

  /** Registering an object again with the coordinates it already has keeps the index exact. */
  lemma ReRegisterSame<O, C>(m: SubsetMap<O, C>, o: O, s: set<C>)
    requires Valid(m) && (o in m.coordSets ==> m.coordSets[o] == s)
    ensures Valid(Add(m, o, s)) && Add(m, o, s).coordSets == m.coordSets[o := s]
  {
    AddKeepsIndex(m, o, s);
  }
}
