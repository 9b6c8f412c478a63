/** The `Grid` of board.py as a value: rows of cell statuses, its dimensions,
    the clipped neighbourhood `get_aware` computes, and the hint list
    `get_nums` returns. A position is a (row, column) pair; a neighbour in the
    source is a reference to the grid's cell, here it is that cell's position. */
module Grids {
  import opened Cells

  type Grid = seq<seq<Status>>
  type Pos = (nat, nat)

  /** `Grid(values)`: an empty list of rows becomes one empty row (`values or [[]]`). */
  function MakeGrid(values: seq<seq<Status>>): (g: Grid)
    ensures |g| > 0
    ensures values != [] ==> g == values
    ensures values == [] ==> g == [[]]
  {
    if values == [] then [[]] else values
  }

  predicate InGrid(g: Grid, p: Pos) {
    p.0 < |g| && p.1 < |g[p.0]|
  }

  function At(g: Grid, p: Pos): Status
    requires InGrid(g, p)
  {
    g[p.0][p.1]
  }

  /** `Grid.get(i, j)`, the source's name for At at the position (i, j). */
  function Get(g: Grid, i: nat, j: nat): Status
    requires InGrid(g, (i, j))
  {
    At(g, (i, j))
  }

  predicate SameShape(g: Grid, h: Grid) {
    |g| == |h| && forall r :: 0 <= r < |g| ==> |g[r]| == |h[r]|
  }

  /** The grid after one cell's status is overwritten (what `Cell.as_flagged`
      and `Cell.as_empty` do to the grid that owns the cell). */
  function SetAt(g: Grid, p: Pos, s: Status): (h: Grid)
    requires InGrid(g, p)
    ensures SameShape(g, h) && At(h, p) == s
    ensures forall q :: InGrid(g, q) && q != p ==> At(h, q) == At(g, q)
  {
    g[p.0 := g[p.0][p.1 := s]]
  }

  /** All rows have the same length. */
  predicate Rectangular(g: Grid) {
    forall a, b :: 0 <= a < |g| && 0 <= b < |g| ==> |g[a]| == |g[b]|
  }

  /** `Grid.nrows`: the number of non-empty rows. */
  function NRows(g: Grid): (n: nat)
    ensures n <= |g|
    ensures n == 0 <==> forall r :: 0 <= r < |g| ==> g[r] == []
    ensures n == |g| <==> forall r :: 0 <= r < |g| ==> g[r] != []
    ensures Rectangular(g) && n > 0 ==> n == |g|
  {
    if g == [] then 0
    else
      var n := (if g[0] != [] then 1 else 0) + NRows(g[1..]);
      assert forall r :: 1 <= r < |g| ==> g[r] == g[1..][r - 1];
      n
  }

  /** The indices of the non-empty rows. */
  function NonEmptyRows(g: Grid): set<nat> {
    set r: nat | r < |g| && g[r] != []
  }

  /** Adding a row adds one to the count when the row is non-empty. */
  lemma {:induction false} NRowsSnoc(g: Grid, row: seq<Status>)
    ensures NRows(g + [row]) == NRows(g) + (if row != [] then 1 else 0)
  {
    if g == [] {
      assert [] + [row] == [row];
      assert [row][1..] == [];
    } else {
      assert (g + [row])[0] == g[0];
      assert (g + [row])[1..] == g[1..] + [row];
      NRowsSnoc(g[1..], row);
    }
  }

  /** `nrows` counts exactly the non-empty rows, whichever they are. */
  lemma {:induction false} NRowsCounts(g: Grid)
    ensures NRows(g) == |NonEmptyRows(g)|
    decreases |g|
  {
    if g != [] {
      var last := |g| - 1;
      var init := g[..last];
      assert g == init + [g[last]];
      NRowsCounts(init);
      NRowsSnoc(init, g[last]);
      if g[last] != [] {
        assert NonEmptyRows(g) == NonEmptyRows(init) + {last};
      } else {
        assert NonEmptyRows(g) == NonEmptyRows(init);
      }
    }
  }

  /** `Grid.ncols`: 0 without non-empty rows, otherwise the length of a row
      (the source pops an arbitrary element of the set of row lengths; this
      model takes the first row's). */
  function NCols(g: Grid): (n: nat)
    ensures NRows(g) == 0 ==> n == 0
    ensures NRows(g) > 0 ==> exists r :: 0 <= r < |g| && n == |g[r]|
    ensures Rectangular(g) ==> forall r :: 0 <= r < |g| ==> n == |g[r]|
  {
    if NRows(g) == 0 then 0 else |g[0]|
  }

  /** (i, j) lies inside the dimensions the source computes. */
  predicate ValidPos(g: Grid, i: nat, j: nat) {
    Rectangular(g) && i < NRows(g) && j < NCols(g)
  }

  lemma SameShapeDims(g: Grid, h: Grid)
    requires SameShape(g, h)
    ensures NRows(g) == NRows(h) && NCols(g) == NCols(h)
    ensures Rectangular(g) <==> Rectangular(h)
    ensures forall p :: InGrid(g, p) <==> InGrid(h, p)
    decreases |g|
  {
    if g != [] {
      assert SameShape(g[1..], h[1..]) by {
        forall r | 0 <= r < |g[1..]| ensures |g[1..][r]| == |h[1..][r]| {
          assert g[1..][r] == g[r + 1] && h[1..][r] == h[r + 1];
        }
      }
      SameShapeDims(g[1..], h[1..]);
      assert (g[0] == []) == (h[0] == []) by { assert |g[0]| == |h[0]|; }
    }
  }

  /** Grids of one shape that agree at every position are equal. */
  lemma GridExt(g: Grid, h: Grid)
    requires SameShape(g, h)
    requires forall p :: InGrid(g, p) ==> At(g, p) == At(h, p)
    ensures g == h
  {
    forall r | 0 <= r < |g| ensures g[r] == h[r] {
      forall c | 0 <= c < |g[r]| ensures g[r][c] == h[r][c] {
        assert At(g, (r, c)) == At(h, (r, c));
      }
    }
  }

  /** No cell of g is unknown. */
  predicate NoUnknown(g: Grid) {
    forall r, c :: 0 <= r < |g| && 0 <= c < |g[r]| ==> g[r][c] != UNK
  }

  // ----- positions in row-major order -----

  predicate Before(p: Pos, q: Pos) {
    p.0 < q.0 || (p.0 == q.0 && p.1 < q.1)
  }

  /** Strictly increasing in row-major order (hence no position twice). */
  predicate RowMajor(ps: seq<Pos>) {
    forall a, b :: 0 <= a < b < |ps| ==> Before(ps[a], ps[b])
  }

  lemma RowMajorDistinct(ps: seq<Pos>, a: nat, b: nat)
    requires RowMajor(ps) && a < |ps| && b < |ps| && a != b
    ensures ps[a] != ps[b]
  {
    if a < b { assert Before(ps[a], ps[b]); } else { assert Before(ps[b], ps[a]); }
  }

  lemma RowMajorPrefix(ps: seq<Pos>, n: nat)
    requires RowMajor(ps) && n < |ps|
    ensures ps[n] !in ps[..n]
  {
    forall a | 0 <= a < n ensures ps[..n][a] != ps[n] {
      RowMajorDistinct(ps, a, n);
    }
  }

  lemma RowMajorAppend(xs: seq<Pos>, ys: seq<Pos>)
    requires RowMajor(xs) && RowMajor(ys)
    requires forall x, y :: x in xs && y in ys ==> Before(x, y)
    ensures RowMajor(xs + ys)
  {
    var zs := xs + ys;
    forall a, b | 0 <= a < b < |zs| ensures Before(zs[a], zs[b]) {
      if b < |xs| {
        assert zs[a] == xs[a] && zs[b] == xs[b];
      } else if a >= |xs| {
        assert zs[a] == ys[a - |xs|] && zs[b] == ys[b - |xs|];
      } else {
        assert zs[a] in xs && zs[b] in ys;
      }
    }
  }

  /** Row r, columns c .. c1 - 1, left to right. */
  function RowSpan(r: nat, c: nat, c1: nat): (ps: seq<Pos>)
    decreases c1 - c
    ensures forall p :: p in ps <==> p.0 == r && c <= p.1 < c1
    ensures RowMajor(ps)
    ensures |ps| == if c1 <= c then 0 else c1 - c
  {
    if c1 <= c then []
    else
      var rest := RowSpan(r, c + 1, c1);
      RowMajorAppend([(r, c)], rest);
      [(r, c)] + rest
  }

  /** Rows r .. r1 - 1 by columns c0 .. c1 - 1, in row-major order: the
      positions two nested `range` loops visit. */
  function Span(r: nat, r1: nat, c0: nat, c1: nat): (ps: seq<Pos>)
    decreases r1 - r
    ensures forall p :: p in ps <==> r <= p.0 < r1 && c0 <= p.1 < c1
    ensures RowMajor(ps)
    ensures c1 <= c0 + 3 ==> |ps| <= 3 * (if r1 <= r then 0 else r1 - r)
  {
    if r1 <= r then []
    else
      var row := RowSpan(r, c0, c1);
      var rest := Span(r + 1, r1, c0, c1);
      RowMajorAppend(row, rest);
      row + rest
  }

  // ----- filtering and counting -----

  lemma RowMajorSnoc(xs: seq<Pos>, x: Pos)
    requires RowMajor(xs)
    requires forall y :: y in xs ==> Before(y, x)
    ensures RowMajor(xs + [x])
  {
    RowMajorAppend(xs, [x]);
  }

  /** The positions of ps that satisfy keep, in their order (a Python
      comprehension with an `if`). It is stated on whole position lists, and
      its lemmas keep row-major order; the solver's state lists use
      `Filtered`, which works on a prefix of a list of any type. */
  function Filter(ps: seq<Pos>, keep: Pos -> bool): (r: seq<Pos>)
    decreases |ps|
    ensures |r| <= |ps|
    ensures forall p :: p in r <==> p in ps && keep(p)
  {
    if ps == [] then []
    else
      var last := ps[|ps| - 1];
      Filter(ps[..|ps| - 1], keep) + (if keep(last) then [last] else [])
  }

  lemma FilterRowMajor(ps: seq<Pos>, keep: Pos -> bool)
    requires RowMajor(ps)
    ensures RowMajor(Filter(ps, keep))
    decreases |ps|
  {
    if ps != [] {
      var init := ps[..|ps| - 1];
      var last := ps[|ps| - 1];
      assert ps == init + [last];
      assert RowMajor(init) by {
        forall a, b | 0 <= a < b < |init| ensures Before(init[a], init[b]) {
          assert init[a] == ps[a] && init[b] == ps[b];
        }
      }
      FilterRowMajor(init, keep);
      var r0 := Filter(init, keep);
      assert forall y :: y in r0 ==> Before(y, last) by {
        forall y | y in r0 ensures Before(y, last) {
          var a :| 0 <= a < |init| && init[a] == y;
          assert ps[a] == y;
        }
      }
      RowMajorSnoc(r0, last);
    }
  }

  lemma FilterDrops(ps: seq<Pos>, keep: Pos -> bool, x: Pos)
    requires x in ps && !keep(x)
    ensures |Filter(ps, keep)| < |ps|
    decreases |ps|
  {
    var init := ps[..|ps| - 1];
    assert ps == init + [ps[|ps| - 1]];
    if ps[|ps| - 1] != x {
      FilterDrops(init, keep, x);
    }
  }

  /** Extending the filtered prefix by one element. */
  lemma FilterPrefix(ps: seq<Pos>, k: nat, keep: Pos -> bool)
    requires k < |ps|
    ensures Filter(ps[..k + 1], keep) == Filter(ps[..k], keep) + (if keep(ps[k]) then [ps[k]] else [])
  {
    assert ps[..k + 1][..k] == ps[..k];
  }

  /** Filters that agree on every position of ps give the same list. */
  lemma FilterCongruent(ps: seq<Pos>, k1: Pos -> bool, k2: Pos -> bool)
    requires forall p :: p in ps ==> k1(p) == k2(p)
    ensures Filter(ps, k1) == Filter(ps, k2)
    decreases |ps|
  {
    if ps != [] {
      var init := ps[..|ps| - 1];
      assert ps == init + [ps[|ps| - 1]];
      FilterCongruent(init, k1, k2);
    }
  }

  predicate AllIn(g: Grid, ps: seq<Pos>) {
    forall p :: p in ps ==> InGrid(g, p)
  }

  /** The number of positions of ps whose status is s. */
  function CountStatus(g: Grid, ps: seq<Pos>, s: Status): (n: nat)
    requires AllIn(g, ps)
    decreases |ps|
    ensures n <= |ps|
  {
    if ps == [] then 0
    else
      var init := ps[..|ps| - 1];
      CountStatus(g, init, s) + (if At(g, ps[|ps| - 1]) == s then 1 else 0)
  }

  lemma CountSnoc(g: Grid, ps: seq<Pos>, p: Pos, s: Status)
    requires AllIn(g, ps) && InGrid(g, p)
    ensures AllIn(g, ps + [p])
    ensures CountStatus(g, ps + [p], s) == CountStatus(g, ps, s) + (if At(g, p) == s then 1 else 0)
  {
    assert (ps + [p])[..|ps|] == ps;
  }

  /** Grids that agree on ps have the same counts there. */
  lemma CountFrame(g: Grid, h: Grid, ps: seq<Pos>, s: Status)
    requires AllIn(g, ps) && AllIn(h, ps)
    requires forall p :: p in ps ==> At(g, p) == At(h, p)
    ensures CountStatus(g, ps, s) == CountStatus(h, ps, s)
    decreases |ps|
  {
    if ps != [] {
      var init := ps[..|ps| - 1];
      assert ps == init + [ps[|ps| - 1]];
      CountFrame(g, h, init, s);
    }
  }

  /** Where g has s, h has s too: h counts at least as many. */
  lemma CountMono(g: Grid, h: Grid, ps: seq<Pos>, s: Status)
    requires AllIn(g, ps) && AllIn(h, ps)
    requires forall p :: p in ps && At(g, p) == s ==> At(h, p) == s
    ensures CountStatus(g, ps, s) <= CountStatus(h, ps, s)
    decreases |ps|
  {
    if ps != [] {
      var init := ps[..|ps| - 1];
      assert ps == init + [ps[|ps| - 1]];
      CountMono(g, h, init, s);
    }
  }

  /** Every position of ps has status s exactly when all of them are counted. */
  lemma CountAll(g: Grid, ps: seq<Pos>, s: Status)
    requires AllIn(g, ps)
    ensures CountStatus(g, ps, s) == |ps| <==> forall p :: p in ps ==> At(g, p) == s
    decreases |ps|
  {
    if ps != [] {
      var init := ps[..|ps| - 1];
      assert ps == init + [ps[|ps| - 1]];
      CountAll(g, init, s);
    }
  }

  /** Dropping positions that are not s does not change the count of s. */
  lemma CountFilter(g: Grid, ps: seq<Pos>, keep: Pos -> bool, s: Status)
    requires AllIn(g, ps)
    requires forall p :: p in ps && !keep(p) ==> At(g, p) != s
    ensures AllIn(g, Filter(ps, keep))
    ensures CountStatus(g, Filter(ps, keep), s) == CountStatus(g, ps, s)
    decreases |ps|
  {
    if ps != [] {
      var init := ps[..|ps| - 1];
      var last := ps[|ps| - 1];
      assert ps == init + [last];
      CountFilter(g, init, keep, s);
      CountSnoc(g, init, last, s);
      assert Filter(ps, keep) == Filter(init, keep) + (if keep(last) then [last] else []);
      var f0 := Filter(init, keep);
      assert CountStatus(g, ps, s) == CountStatus(g, init, s) + (if At(g, last) == s then 1 else 0);
      if keep(last) {
        CountSnoc(g, f0, last, s);
        assert CountStatus(g, f0 + [last], s) == CountStatus(g, f0, s) + (if At(g, last) == s then 1 else 0);
      } else {
        assert At(g, last) != s;
        assert Filter(ps, keep) == f0;
      }
    }
  }

  /** g with the positions of ps taken from h. */
  function Overlay(g: Grid, h: Grid, ps: seq<Pos>): (r: Grid)
    requires SameShape(g, h) && AllIn(g, ps)
    decreases |ps|
    ensures SameShape(g, r)
    ensures forall p :: InGrid(g, p) ==> At(r, p) == if p in ps then At(h, p) else At(g, p)
  {
    if ps == [] then g
    else
      var r0 := Overlay(g, h, ps[..|ps| - 1]);
      assert ps == ps[..|ps| - 1] + [ps[|ps| - 1]];
      SameShapeDims(g, r0);
      SameShapeDims(g, h);
      SetAt(r0, ps[|ps| - 1], At(h, ps[|ps| - 1]))
  }

  // ----- the neighbourhood of get_aware -----

  /** First row (column) of the block around x, as the source computes it:
      `x if x - 1 <= 0 else x - 1`. For x = 1 this is 1, not 0. */
  function RangeStart(x: nat): nat {
    if x - 1 <= 0 then x else x - 1
  }

  /** Last row (column) of the block: `x + 1 if x + 1 < n else x`. */
  function RangeFinal(x: nat, n: nat): nat {
    if x + 1 < n then x + 1 else x
  }

  /** The clipped block around (i, j), centre included, in row-major order. */
  function Block(g: Grid, i: nat, j: nat): (ps: seq<Pos>)
    requires ValidPos(g, i, j)
    ensures forall p :: p in ps <==>
      RangeStart(i) <= p.0 <= RangeFinal(i, NRows(g)) && RangeStart(j) <= p.1 <= RangeFinal(j, NCols(g))
    ensures AllIn(g, ps)
    ensures (i, j) in ps
    ensures |ps| <= 9
    ensures RowMajor(ps)
  {
    Span(RangeStart(i), RangeFinal(i, NRows(g)) + 1, RangeStart(j), RangeFinal(j, NCols(g)) + 1)
  }

  /** A cell that `get_aware` keeps: not the centre, and neither blank nor a hint. */
  predicate Relevant(g: Grid, i: nat, j: nat, p: Pos) {
    p != (i, j) && InGrid(g, p) && (At(g, p) == UNK || At(g, p) == FLG)
  }

  function RelevantTest(g: Grid, i: nat, j: nat): Pos -> bool {
    p => Relevant(g, i, j, p)
  }

  /** The block depends on the dimensions only. */
  lemma SameShapeBlock(g: Grid, h: Grid, i: nat, j: nat)
    requires SameShape(g, h) && ValidPos(g, i, j)
    ensures ValidPos(h, i, j) && Block(h, i, j) == Block(g, i, j)
  {
    SameShapeDims(g, h);
  }

  /** The relevant neighbours of (i, j) (`get_aware(i, j).neighbors`). */
  function Neighbors(g: Grid, i: nat, j: nat): (ns: seq<Pos>)
    requires ValidPos(g, i, j)
    ensures AllIn(g, ns)
    ensures forall p :: p in ns <==> p in Block(g, i, j) && Relevant(g, i, j, p)
    ensures forall p :: p in ns ==> p != (i, j) && (At(g, p) == UNK || At(g, p) == FLG)
    ensures |ns| <= 8
    ensures RowMajor(ns)
  {
    var ns := Filter(Block(g, i, j), RelevantTest(g, i, j));
    FilterDrops(Block(g, i, j), RelevantTest(g, i, j), (i, j));
    FilterRowMajor(Block(g, i, j), RelevantTest(g, i, j));
    ns
  }

  function Dist(a: nat, b: nat): nat {
    if a <= b then b - a else a - b
  }

  /** The block is the edge-clipped 3x3 neighbourhood, except that row 0 is
      missing around row 1 and column 0 around column 1. */
  lemma BlockIsClippedNeighbourhood(g: Grid, i: nat, j: nat, p: Pos)
    requires ValidPos(g, i, j)
    ensures p in Block(g, i, j) <==>
      InGrid(g, p) && Dist(i, p.0) <= 1 && Dist(j, p.1) <= 1
      && !(i == 1 && p.0 == 0) && !(j == 1 && p.1 == 0)
  {
  }

  /** An unknown cell right above a hint on row 1 is not seen by it. */
  lemma RowOneMissesRowZero()
    ensures ValidPos([[UNK], [NUM(1)]], 1, 0)
    ensures Neighbors([[UNK], [NUM(1)]], 1, 0) == []
  {
    var g := [[UNK], [NUM(1)]];
    assert NRows(g) == 2;
    assert NCols(g) == 1;
    assert Block(g, 1, 0) == [(1, 0)] by {
      assert RowSpan(1, 0, 1) == [(1, 0)];
      assert Span(2, 2, 0, 1) == [];
    }
    var ns := Neighbors(g, 1, 0);
    assert forall p :: p !in ns;
  }

  /** `get_aware(i, j)`: the centre, its relevant neighbours and the grid they
      refer to. Attached, the neighbours are positions in the caller's grid and
      writing through them is an update of that grid; detached, the grid is a
      copy, which for values is the same grid and leaves the caller's unchanged. */
  datatype AwareCell = AwareCell(main: Status, neighbors: seq<Pos>, grid: Grid)

  function GetAware(g: Grid, i: nat, j: nat): (a: AwareCell)
    requires ValidPos(g, i, j)
    ensures a.grid == g
    ensures InGrid(a.grid, (i, j)) && a.main == At(a.grid, (i, j))
    ensures a.neighbors == Neighbors(g, i, j) && |a.neighbors| <= 8
  {
    AwareCell(g[i][j], Neighbors(g, i, j), g)
  }

  // ----- the hint list of get_nums -----

  predicate IsNum(g: Grid, p: Pos) {
    InGrid(g, p) && At(g, p).NUM?
  }

  /** The positions of the hint cells, row by row (the order of `get_nums`
      and of `Solver.hints`). */
  function NumPositions(g: Grid): (ps: seq<Pos>)
    requires Rectangular(g)
    ensures forall p :: p in ps <==> IsNum(g, p)
    ensures forall p :: p in ps ==> ValidPos(g, p.0, p.1) && At(g, p).NUM?
    ensures RowMajor(ps)
  {
    FilterRowMajor(Span(0, NRows(g), 0, NCols(g)), p => IsNum(g, p));
    Filter(Span(0, NRows(g), 0, NCols(g)), p => IsNum(g, p))
  }

  /** `get_nums()`: the hint cells themselves, in the same order. */
  function GetNums(g: Grid): (cs: seq<Status>)
    requires Rectangular(g)
    ensures |cs| == |NumPositions(g)|
    ensures forall k :: 0 <= k < |cs| ==> cs[k].NUM? && cs[k] == At(g, NumPositions(g)[k])
  {
    var ps := NumPositions(g);
    seq(|ps|, k requires 0 <= k < |ps| => At(g, ps[k]))
  }

  /** `get_nums(aware=True)`: the neighbourhood view of every hint cell. */
  function GetNumsAware(g: Grid): (views: seq<AwareCell>)
    requires Rectangular(g)
    ensures |views| == |NumPositions(g)|
    ensures forall k :: 0 <= k < |views| ==>
      views[k].main.NUM? && views[k].neighbors == Neighbors(g, NumPositions(g)[k].0, NumPositions(g)[k].1)
    ensures forall k :: 0 <= k < |views| ==>
      views[k].grid == g && views[k].main == At(g, NumPositions(g)[k])
  {
    var ps := NumPositions(g);
    seq(|ps|, k requires 0 <= k < |ps| => GetAware(g, ps[k].0, ps[k].1))
  }
}
