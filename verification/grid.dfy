/** Board coordinates and the eight-cell neighbourhood that every board variant shares. */
module Grid {
  import opened Common

  /** A cell position `(x, y)`: column first, then row. */
  type Coord = (int, int)

  /** Chebyshev distance exactly one: the eight cells around `a`, never `a` itself. */
  predicate Adjacent(a: Coord, b: Coord) {
    a != b && -1 <= a.0 - b.0 <= 1 && -1 <= a.1 - b.1 <= 1
  }

  /** The eight positions around `c`, listed in the offset order the source visits:
      (-1,-1), (0,-1), (1,-1), (1,0), (1,1), (0,1), (-1,1), (-1,0). */
  function Box(c: Coord): (r: set<Coord>)
    ensures |r| == 8
    ensures forall p :: p in r <==> Adjacent(c, p)
  {
    var (x, y) := c;
    {(x - 1, y - 1), (x, y - 1), (x + 1, y - 1), (x + 1, y),
     (x + 1, y + 1), (x, y + 1), (x - 1, y + 1), (x - 1, y)}
  }

  /** The neighbours of `c` on a board stored as a map from position to cell:
      every offset is looked up and the positions the board does not hold are dropped. */
  function NeighborsIn<V>(board: map<Coord, V>, c: Coord): (r: set<Coord>)
    ensures |r| <= 8
    ensures c !in r
    ensures forall p :: p in r <==> p in board && Adjacent(c, p)
  {
    var r := set p | p in Box(c) && p in board;
    SubsetCard(r, Box(c));
    r
  }

  /** Every position of a `w` by `h` board. */
  function Coords(w: int, h: int): set<Coord> {
    set x, y | 0 <= x < w && 0 <= y < h :: (x, y)
  }

  lemma CoordsMembership(w: int, h: int, p: Coord)
    ensures p in Coords(w, h) <==> 0 <= p.0 < w && 0 <= p.1 < h
  {
    if 0 <= p.0 < w && 0 <= p.1 < h {
      assert p == (p.0, p.1);
    }
  }
}
