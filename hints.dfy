/** The three operations solver.py applies at one hint cell: `is_valid` (the
    flags around it do not exceed its count), `unmark` (its unknown neighbours
    become safe) and `mark` (every way of flagging as many neighbours as the
    count says, each completed by `unmark`). */
module Hints {
  import opened Wrappers
  import opened Cells
  import opened Grids
  import opened Combinatorics

  /** (i, j) is a hint of g: a number cell inside a rectangular grid. */
  predicate HintAt(g: Grid, i: nat, j: nat) {
    ValidPos(g, i, j) && At(g, (i, j)).NUM?
  }

  /** The count a hint shows. */
  function Count(g: Grid, i: nat, j: nat): nat
    requires HintAt(g, i, j)
  {
    At(g, (i, j)).value
  }

  /** Outside the relevant neighbours, the block holds no flag. */
  lemma FlagsAreNeighbors(g: Grid, i: nat, j: nat)
    requires HintAt(g, i, j)
    ensures CountStatus(g, Neighbors(g, i, j), FLG) == CountStatus(g, Block(g, i, j), FLG)
  {
    var b := Block(g, i, j);
    CountFilter(g, b, RelevantTest(g, i, j), FLG);
  }

  /** `is_valid`: the hint's flagged neighbours are no more than its count,
      that is, there are no more flags in its block than it says. */
  function IsValid(g: Grid, i: nat, j: nat): (b: bool)
    requires HintAt(g, i, j)
    ensures b <==> CountStatus(g, Block(g, i, j), FLG) <= Count(g, i, j)
  {
    FlagsAreNeighbors(g, i, j);
    CountStatus(g, Neighbors(g, i, j), FLG) <= Count(g, i, j)
  }

  /** g with every position of ps set to s. */
  function Assign(g: Grid, ps: seq<Pos>, s: Status): (h: Grid)
    requires AllIn(g, ps)
    decreases |ps|
    ensures SameShape(g, h)
    ensures forall p :: InGrid(g, p) ==> At(h, p) == if p in ps then s else At(g, p)
  {
    if ps == [] then g
    else
      var h0 := Assign(g, ps[..|ps| - 1], s);
      assert ps == ps[..|ps| - 1] + [ps[|ps| - 1]];
      SameShapeDims(g, h0);
      SetAt(h0, ps[|ps| - 1], s)
  }

  lemma AssignSnoc(g: Grid, ps: seq<Pos>, p: Pos, s: Status)
    requires AllIn(g, ps) && InGrid(g, p)
    ensures AllIn(g, ps + [p])
    ensures Assign(g, ps + [p], s) == SetAt(Assign(g, ps, s), p, s)
  {
    assert (ps + [p])[..|ps|] == ps;
  }

  /** The test `unmark` makes: neither a flag nor a number. */
  predicate Blankable(s: Status) {
    !(s.FLG? || s.NUM?)
  }

  function BlankTest(g: Grid): Pos -> bool {
    p => InGrid(g, p) && Blankable(At(g, p))
  }

  /** `unmark` on a grid: the unknown neighbours of the hint become blank,
      nothing else changes. */
  function Unmarked(g: Grid, i: nat, j: nat): (h: Grid)
    requires ValidPos(g, i, j)
    ensures SameShape(g, h)
    ensures forall p :: InGrid(g, p) ==>
      At(h, p) == if p in Neighbors(g, i, j) && At(g, p) == UNK then EMT else At(g, p)
  {
    Assign(g, Filter(Neighbors(g, i, j), BlankTest(g)), EMT)
  }

  /** `unmark(grid, i, j)`: a pass over the neighbours, blanking each one that
      is neither flagged nor a number. The attached grid is updated in place
      in the source; here the updated grid is returned. */
  method Unmark(g: Grid, i: nat, j: nat) returns (h: Grid)
    requires ValidPos(g, i, j)
    ensures h == Unmarked(g, i, j)
  {
    var ns := Neighbors(g, i, j);
    h := g;
    for k := 0 to |ns|
      invariant h == Assign(g, Filter(ns[..k], BlankTest(g)), EMT)
    {
      UnmarkStep(g, ns, k);
      if At(h, ns[k]).FLG? || At(h, ns[k]).NUM? {
      } else {
        h := SetAt(h, ns[k], EMT);
      }
    }
    assert ns[..|ns|] == ns;
  }

  /** One step of the pass: the next neighbour still has its original status,
      and it joins the blanked ones exactly when the test passes. */
  lemma UnmarkStep(g: Grid, ns: seq<Pos>, k: nat)
    requires AllIn(g, ns) && RowMajor(ns) && k < |ns|
    ensures AllIn(g, Filter(ns[..k], BlankTest(g)))
    ensures var h := Assign(g, Filter(ns[..k], BlankTest(g)), EMT);
      InGrid(h, ns[k]) && At(h, ns[k]) == At(g, ns[k])
      && Assign(g, Filter(ns[..k + 1], BlankTest(g)), EMT) ==
         if At(h, ns[k]).FLG? || At(h, ns[k]).NUM? then h else SetAt(h, ns[k], EMT)
  {
    var t := BlankTest(g);
    var f := Filter(ns[..k], t);
    assert AllIn(g, f) by {
      forall p | p in f ensures InGrid(g, p) { assert p in ns[..k]; }
    }
    RowMajorPrefix(ns, k);
    assert ns[k] !in f;
    var h := Assign(g, f, EMT);
    SameShapeDims(g, h);
    assert At(h, ns[k]) == At(g, ns[k]);
    FilterPrefix(ns, k, t);
    assert t(ns[k]) == !(At(g, ns[k]).FLG? || At(g, ns[k]).NUM?);
    if t(ns[k]) {
      AssignSnoc(g, f, ns[k], EMT);
    } else {
      assert Filter(ns[..k + 1], t) == f;
    }
  }

  /** Blanking the unknown neighbours twice is blanking them once. */
  lemma UnmarkedIdempotent(g: Grid, i: nat, j: nat)
    requires ValidPos(g, i, j)
    ensures ValidPos(Unmarked(g, i, j), i, j)
    ensures Unmarked(Unmarked(g, i, j), i, j) == Unmarked(g, i, j)
  {
    var h := Unmarked(g, i, j);
    SameShapeBlock(g, h, i, j);
    var h2 := Unmarked(h, i, j);
    SameShapeDims(g, h);
    SameShapeDims(h, h2);
    forall p | InGrid(h, p) ensures At(h2, p) == At(h, p) {
      if p in Neighbors(h, i, j) && At(h, p) == UNK {
        assert p in Neighbors(g, i, j);
      }
    }
    GridExt(h2, h);
  }

  // ----- mark -----

  /** The neighbours among ns[..k] whose index the combination c holds, in order. */
  function Picks(ns: seq<Pos>, c: seq<nat>, k: nat): (ps: seq<Pos>)
    requires k <= |ns|
    ensures forall p :: p in ps ==> p in ns[..k]
  {
    if k == 0 then []
    else
      assert ns[..k] == ns[..k - 1] + [ns[k - 1]];
      var ps0 := Picks(ns, c, k - 1);
      if k - 1 in c then ps0 + [ns[k - 1]] else ps0
  }

  /** With distinct neighbours, neighbour m is picked exactly when c holds m. */
  lemma {:induction false} PicksIndex(ns: seq<Pos>, c: seq<nat>, k: nat, m: nat)
    requires RowMajor(ns) && k <= |ns| && m < |ns|
    ensures ns[m] in Picks(ns, c, k) <==> m < k && m in c
  {
    if k > 0 {
      PicksIndex(ns, c, k - 1, m);
      if m != k - 1 {
        RowMajorDistinct(ns, m, k - 1);
      }
    }
  }

  /** Number of indices below k that c holds. */
  function Hits(c: seq<nat>, k: nat): (n: nat)
    ensures n <= k
  {
    if k == 0 then 0 else Hits(c, k - 1) + (if k - 1 in c then 1 else 0)
  }

  /** Number of indices below k that c does not hold and whose neighbour is flagged in g. */
  function Others(g: Grid, ns: seq<Pos>, c: seq<nat>, k: nat): nat
    requires AllIn(g, ns) && k <= |ns|
  {
    if k == 0 then 0
    else Others(g, ns, c, k - 1) + (if k - 1 !in c && At(g, ns[k - 1]) == FLG then 1 else 0)
  }

  lemma {:induction false} HitsCongruent(c: seq<nat>, d: seq<nat>, k: nat)
    requires forall m :: 0 <= m < k ==> (m in c <==> m in d)
    ensures Hits(c, k) == Hits(d, k)
  {
    if k > 0 { HitsCongruent(c, d, k - 1); }
  }

  lemma {:induction false} HitsNone(k: nat)
    ensures Hits([], k) == 0
  {
    if k > 0 { HitsNone(k - 1); }
  }

  /** One more index below k, not held before, is one more hit. */
  lemma {:induction false} HitsAdd(c: seq<nat>, x: nat, k: nat)
    requires x !in c && x < k
    ensures Hits(c + [x], k) == Hits(c, k) + 1
  {
    if k - 1 == x {
      HitsCongruent(c + [x], c, k - 1);
    } else {
      HitsAdd(c, x, k - 1);
    }
  }

  /** An increasing tuple of indices below k holds |c| of them. */
  lemma {:induction false} HitsAll(c: seq<nat>, k: nat)
    requires Increasing(c) && forall a :: 0 <= a < |c| ==> c[a] < k
    ensures Hits(c, k) == |c|
    decreases |c|
  {
    if c == [] {
      HitsNone(k);
    } else {
      var c0 := c[..|c| - 1];
      var x := c[|c| - 1];
      assert c == c0 + [x];
      assert x !in c0 by {
        forall b | 0 <= b < |c0| ensures c0[b] != x { assert c0[b] == c[b] < x; }
      }
      HitsAll(c0, k);
      HitsAdd(c0, x, k);
    }
  }

  lemma {:induction false} OthersZero(g: Grid, ns: seq<Pos>, c: seq<nat>, k: nat)
    requires AllIn(g, ns) && k <= |ns|
    ensures Others(g, ns, c, k) == 0 <==> forall m :: 0 <= m < k && m !in c ==> At(g, ns[m]) != FLG
  {
    if k > 0 { OthersZero(g, ns, c, k - 1); }
  }

  /** On a grid that is flagged at the picked neighbours and is g elsewhere on
      ns, the flags among ns[..k] are the picks plus g's other flags. */
  lemma {:induction false} CountSplit(f: Grid, g: Grid, ns: seq<Pos>, c: seq<nat>, k: nat)
    requires AllIn(f, ns) && AllIn(g, ns) && k <= |ns|
    requires forall m :: 0 <= m < k ==> At(f, ns[m]) == if m in c then FLG else At(g, ns[m])
    ensures AllIn(f, ns[..k])
    ensures CountStatus(f, ns[..k], FLG) == Hits(c, k) + Others(g, ns, c, k)
  {
    assert AllIn(f, ns[..k]) by {
      forall p | p in ns[..k] ensures InGrid(f, p) { assert p in ns; }
    }
    if k > 0 {
      CountSplit(f, g, ns, c, k - 1);
      assert ns[..k] == ns[..k - 1] + [ns[k - 1]];
      CountSnoc(f, ns[..k - 1], ns[k - 1], FLG);
    }
  }

  /** `mark` flags the picked neighbours on a copy of the grid. */
  function Flagged(g: Grid, ns: seq<Pos>, c: seq<nat>): (f: Grid)
    requires AllIn(g, ns)
    ensures SameShape(g, f)
  {
    Assign(g, Picks(ns, c, |ns|), FLG)
  }

  /** Flagging neighbours keeps them relevant, so the neighbour list is unchanged. */
  lemma FlaggedNeighbors(g: Grid, i: nat, j: nat, c: seq<nat>)
    requires ValidPos(g, i, j)
    ensures var f := Flagged(g, Neighbors(g, i, j), c);
      ValidPos(f, i, j) && Neighbors(f, i, j) == Neighbors(g, i, j)
  {
    var ns := Neighbors(g, i, j);
    var f := Flagged(g, ns, c);
    SameShapeBlock(g, f, i, j);
    SameShapeDims(g, f);
    var b := Block(g, i, j);
    forall p | p in b ensures RelevantTest(f, i, j)(p) == RelevantTest(g, i, j)(p) {
      if p in Picks(ns, c, |ns|) {
        assert p in ns[..|ns|];
        assert p in ns;
      }
    }
    FilterCongruent(b, RelevantTest(f, i, j), RelevantTest(g, i, j));
  }

  /** What one possibility of `mark` yields: the copy flagged at the picked
      neighbours, kept when it has at most the hint's count of flags among
      them, and then completed by `unmark`. */
  function Attempt(g: Grid, i: nat, j: nat, c: seq<nat>): (r: Option<Grid>)
    requires HintAt(g, i, j)
  {
    var ns := Neighbors(g, i, j);
    var f := Flagged(g, ns, c);
    FlaggedNeighbors(g, i, j, c);
    SameShapeDims(g, f);
    if CountStatus(f, ns, FLG) <= Count(g, i, j) then Some(Unmarked(f, i, j)) else None
  }

  lemma AttemptIs(g: Grid, i: nat, j: nat, c: seq<nat>, f: Grid)
    requires HintAt(g, i, j)
    requires f == Flagged(g, Neighbors(g, i, j), c)
    ensures ValidPos(f, i, j) && AllIn(f, Neighbors(g, i, j))
    ensures Attempt(g, i, j, c) ==
      if CountStatus(f, Neighbors(g, i, j), FLG) <= Count(g, i, j) then Some(Unmarked(f, i, j)) else None
  {
    FlaggedNeighbors(g, i, j, c);
    SameShapeDims(g, f);
  }

  /** Attempt at one hint, as a function of the possibility. */
  function AttemptAt(g: Grid, i: nat, j: nat): seq<nat> -> Option<Grid>
    requires HintAt(g, i, j)
  {
    c => Attempt(g, i, j, c)
  }

  /** The grids of the kept possibilities among the first n of cs. */
  function MarkEach(attempt: seq<nat> -> Option<Grid>, cs: seq<seq<nat>>, n: nat): (gs: seq<Grid>)
    requires n <= |cs|
    ensures |gs| <= n
  {
    if n == 0 then []
    else
      var gs0 := MarkEach(attempt, cs, n - 1);
      match attempt(cs[n - 1])
      case Some(h) => gs0 + [h]
      case None => gs0
  }

  lemma {:induction false} MarkEachMember(attempt: seq<nat> -> Option<Grid>, cs: seq<seq<nat>>, n: nat, h: Grid)
    requires n <= |cs|
    ensures h in MarkEach(attempt, cs, n) <==> exists m :: 0 <= m < n && attempt(cs[m]) == Some(h)
  {
    if n > 0 {
      MarkEachMember(attempt, cs, n - 1, h);
    }
  }

  function Marked(g: Grid, i: nat, j: nat): seq<Grid>
    requires HintAt(g, i, j)
  {
    var cs := Combinations(|Neighbors(g, i, j)|, Count(g, i, j));
    MarkEach(AttemptAt(g, i, j), cs, |cs|)
  }

  method Mark(g: Grid, i: nat, j: nat) returns (grids: seq<Grid>)
    requires HintAt(g, i, j)
    ensures grids == Marked(g, i, j)
  {
    var ns := Neighbors(g, i, j);
    var possibilities := Combinations(|ns|, Count(g, i, j));
    grids := [];
    for n := 0 to |possibilities|
      invariant grids == MarkEach(AttemptAt(g, i, j), possibilities, n)
    {
      var r := Try(g, i, j, possibilities[n]);
      if r.Some? {
        grids := grids + [r.value];
      }
    }
  }

  /** The body of `mark`'s loop for one possibility: flag the chosen
      neighbours on a copy while counting the flags among the neighbours;
      when that count does not exceed the hint, `unmark` the copy and keep it. */
  method Try(g: Grid, i: nat, j: nat, possibility: seq<nat>) returns (r: Option<Grid>)
    requires HintAt(g, i, j)
    ensures r == Attempt(g, i, j, possibility)
  {
    var ns := Neighbors(g, i, j);
    var h, flagged := FlagPass(g, ns, possibility);
    AttemptIs(g, i, j, possibility, h);
    if flagged <= Count(g, i, j) {
      h := Unmark(h, i, j);
      r := Some(h);
    } else {
      r := None;
    }
  }

  /** The inner pass of `mark`: on a copy of the grid, flag each neighbour
      whose index the possibility holds, and count the flags among the
      neighbours as they are passed. */
  method FlagPass(g: Grid, ns: seq<Pos>, possibility: seq<nat>) returns (h: Grid, flagged: nat)
    requires AllIn(g, ns) && RowMajor(ns)
    ensures h == Flagged(g, ns, possibility) && AllIn(h, ns)
    ensures flagged == CountStatus(h, ns, FLG)
  {
    h := g;
    flagged := 0;
    for k := 0 to |ns|
      invariant AllIn(h, ns) && AllIn(h, ns[..k])
      invariant h == Assign(g, Picks(ns, possibility, k), FLG)
      invariant flagged == CountStatus(h, ns[..k], FLG)
    {
      FlagStep(g, ns, possibility, k, h);
      ghost var before := h;
      if k in possibility {
        h := SetAt(h, ns[k], FLG);
      }
      CountStep(before, ns, k, FLG, h);
      flagged := flagged + if At(h, ns[k]) == FLG then 1 else 0;
    }
    assert ns[..|ns|] == ns;
  }

  /** One step of the flagging pass: the next neighbour is flagged exactly
      when the possibility holds its index. */
  lemma FlagStep(g: Grid, ns: seq<Pos>, c: seq<nat>, k: nat, h: Grid)
    requires AllIn(g, ns) && k < |ns|
    requires h == Assign(g, Picks(ns, c, k), FLG)
    ensures AllIn(h, ns) && AllIn(h, ns[..k])
    ensures k in c ==> Assign(g, Picks(ns, c, k + 1), FLG) == SetAt(h, ns[k], FLG)
    ensures k !in c ==> Assign(g, Picks(ns, c, k + 1), FLG) == h
  {
    SameShapeDims(g, h);
    assert AllIn(h, ns[..k]) by {
      forall p | p in ns[..k] ensures InGrid(h, p) { assert p in ns; }
    }
    if k in c {
      AssignSnoc(g, Picks(ns, c, k), ns[k], FLG);
    }
  }

  /** Changing the next neighbour alone leaves the count over the earlier ones. */
  lemma CountStep(h: Grid, ns: seq<Pos>, k: nat, s: Status, h': Grid)
    requires AllIn(h, ns) && RowMajor(ns) && k < |ns|
    requires h' == h || h' == SetAt(h, ns[k], s)
    ensures AllIn(h', ns) && AllIn(h', ns[..k + 1])
    ensures CountStatus(h', ns[..k + 1], FLG) ==
      CountStatus(h, ns[..k], FLG) + (if At(h', ns[k]) == FLG then 1 else 0)
  {
    SameShapeDims(h, h');
    assert AllIn(h, ns[..k]) && AllIn(h', ns[..k]) by {
      forall p | p in ns[..k] ensures InGrid(h, p) && InGrid(h', p) { assert p in ns; }
    }
    RowMajorPrefix(ns, k);
    CountFrame(h, h', ns[..k], FLG);
    assert ns[..k + 1] == ns[..k] + [ns[k]];
    CountSnoc(h', ns[..k], ns[k], FLG);
  }

  // ----- what mark computes -----

  /** h resolves some unknown cells of g, to flags or blanks, and keeps every
      other cell. */
  ghost predicate Refines(g: Grid, h: Grid) {
    SameShape(g, h)
    && forall p :: InGrid(g, p) ==> At(h, p) == At(g, p) || (At(g, p) == UNK && !At(h, p).NUM?)
  }

  lemma RefinesTrans(a: Grid, b: Grid, c: Grid)
    requires Refines(a, b) && Refines(b, c)
    ensures Refines(a, c)
  {
  }

  /** Refining keeps the hints and their counts. */
  lemma RefinesHint(g: Grid, h: Grid, i: nat, j: nat)
    requires HintAt(g, i, j) && Refines(g, h)
    ensures HintAt(h, i, j) && Count(h, i, j) == Count(g, i, j)
  {
    SameShapeDims(g, h);
  }

  /** The hint is done: no unknown cell is left in its block and the flags
      there are exactly its count. */
  predicate Settled(g: Grid, i: nat, j: nat) {
    HintAt(g, i, j)
    && (forall p :: p in Block(g, i, j) ==> At(g, p) != UNK)
    && CountStatus(g, Block(g, i, j), FLG) == Count(g, i, j)
  }

  /** A settled hint stays settled under any refinement, since its block holds
      no unknown cell to resolve. */
  lemma RefinesSettled(g: Grid, h: Grid, i: nat, j: nat)
    requires Settled(g, i, j) && Refines(g, h)
    ensures Settled(h, i, j)
  {
    RefinesHint(g, h, i, j);
    SameShapeBlock(g, h, i, j);
    CountFrame(g, h, Block(g, i, j), FLG);
  }

  /** The neighbours of a settled hint are flags, as many as its count. */
  lemma SettledNeighbors(g: Grid, i: nat, j: nat)
    requires Settled(g, i, j)
    ensures forall p :: p in Neighbors(g, i, j) ==> At(g, p) == FLG
    ensures |Neighbors(g, i, j)| == Count(g, i, j)
  {
    var ns := Neighbors(g, i, j);
    CountAll(g, ns, FLG);
    FlagsAreNeighbors(g, i, j);
  }

  /** The position of every neighbour flagged in a grid f that is flagged at
      the picks of c and equal to g elsewhere. */
  lemma FlaggedAt(g: Grid, i: nat, j: nat, c: seq<nat>)
    requires ValidPos(g, i, j)
    ensures var ns := Neighbors(g, i, j); var f := Flagged(g, ns, c);
      AllIn(f, ns)
      && (forall m :: 0 <= m < |ns| ==> At(f, ns[m]) == if m in c then FLG else At(g, ns[m]))
      && (forall p :: InGrid(g, p) && p !in ns ==> At(f, p) == At(g, p))
  {
    var ns := Neighbors(g, i, j);
    var f := Flagged(g, ns, c);
    SameShapeDims(g, f);
    forall m | 0 <= m < |ns| ensures At(f, ns[m]) == if m in c then FLG else At(g, ns[m]) {
      PicksIndex(ns, c, |ns|, m);
    }
    forall p | InGrid(g, p) && p !in ns ensures At(f, p) == At(g, p) {
      assert p !in ns[..|ns|] by { assert ns[..|ns|] == ns; }
    }
  }

  /** The flags that a possibility c leaves among the neighbours: its own
      picks, plus the neighbours already flagged that it does not hold. */
  lemma FlaggedCount(g: Grid, i: nat, j: nat, c: seq<nat>)
    requires ValidPos(g, i, j)
    requires IsCombination(c, 0, |Neighbors(g, i, j)|, |c|)
    ensures var ns := Neighbors(g, i, j); var f := Flagged(g, ns, c);
      AllIn(f, ns) && CountStatus(f, ns, FLG) == |c| + Others(g, ns, c, |ns|)
  {
    var ns := Neighbors(g, i, j);
    var f := Flagged(g, ns, c);
    FlaggedAt(g, i, j, c);
    CountSplit(f, g, ns, c, |ns|);
    assert ns[..|ns|] == ns;
    HitsAll(c, |ns|);
  }

  /** One possibility c of `mark` is kept exactly when it holds every
      neighbour that is already flagged. */
  lemma AttemptKept(g: Grid, i: nat, j: nat, c: seq<nat>)
    requires HintAt(g, i, j)
    requires IsCombination(c, 0, |Neighbors(g, i, j)|, Count(g, i, j))
    ensures var ns := Neighbors(g, i, j);
      Attempt(g, i, j, c).Some? <==> forall m :: 0 <= m < |ns| && At(g, ns[m]) == FLG ==> m in c
  {
    var ns := Neighbors(g, i, j);
    var f := Flagged(g, ns, c);
    AttemptIs(g, i, j, c, f);
    FlaggedCount(g, i, j, c);
    OthersZero(g, ns, c, |ns|);
  }

  /** A kept possibility c yields the grid with the neighbours c holds
      flagged, the other neighbours blank, and g elsewhere. */
  lemma AttemptGrid(g: Grid, i: nat, j: nat, c: seq<nat>)
    requires HintAt(g, i, j)
    requires IsCombination(c, 0, |Neighbors(g, i, j)|, Count(g, i, j))
    requires Attempt(g, i, j, c).Some?
    ensures var ns := Neighbors(g, i, j); var h := Attempt(g, i, j, c).value;
      SameShape(g, h)
      && (forall m :: 0 <= m < |ns| ==> At(h, ns[m]) == if m in c then FLG else EMT)
      && (forall p :: InGrid(g, p) && p !in ns ==> At(h, p) == At(g, p))
  {
    var ns := Neighbors(g, i, j);
    var f := Flagged(g, ns, c);
    FlaggedNeighbors(g, i, j, c);
    FlaggedAt(g, i, j, c);
    AttemptIs(g, i, j, c, f);
    AttemptKept(g, i, j, c);
    var h := Unmarked(f, i, j);
    SameShapeDims(g, f);
    forall m | 0 <= m < |ns| ensures At(h, ns[m]) == if m in c then FLG else EMT {
      if m !in c {
        assert At(g, ns[m]) != FLG;
      }
    }
  }

  lemma MarkedWitness(g: Grid, i: nat, j: nat, h: Grid)
    requires HintAt(g, i, j) && h in Marked(g, i, j)
    ensures exists c :: (IsCombination(c, 0, |Neighbors(g, i, j)|, Count(g, i, j))
      && Attempt(g, i, j, c) == Some(h))
  {
    var cs := Combinations(|Neighbors(g, i, j)|, Count(g, i, j));
    MarkEachMember(AttemptAt(g, i, j), cs, |cs|, h);
    var m :| 0 <= m < |cs| && AttemptAt(g, i, j)(cs[m]) == Some(h);
    CombinationsAre(|Neighbors(g, i, j)|, Count(g, i, j));
    assert cs[m] in cs;
  }

  /** h resolves the hint's neighbours in g: every one of them becomes a flag
      or a blank, the flags already there stay, and no other cell changes. */
  ghost predicate Resolves(g: Grid, i: nat, j: nat, h: Grid)
    requires ValidPos(g, i, j)
  {
    var ns := Neighbors(g, i, j);
    SameShape(g, h) && AllIn(h, ns)
    && (forall p :: p in ns ==> At(h, p) == FLG || At(h, p) == EMT)
    && (forall p :: p in ns && At(g, p) == FLG ==> At(h, p) == FLG)
    && (forall p :: InGrid(g, p) && p !in ns ==> InGrid(h, p) && At(h, p) == At(g, p))
  }

  /** When the flags among ns sit exactly at the indices a combination c
      holds, there are |c| of them. */
  lemma IndexedCount(h: Grid, ns: seq<Pos>, c: seq<nat>)
    requires AllIn(h, ns) && IsCombination(c, 0, |ns|, |c|)
    requires forall m :: 0 <= m < |ns| ==> (At(h, ns[m]) == FLG <==> m in c)
    ensures CountStatus(h, ns, FLG) == |c|
  {
    CountSplit(h, h, ns, c, |ns|);
    assert ns[..|ns|] == ns;
    HitsAll(c, |ns|);
    OthersZero(h, ns, c, |ns|);
  }

  /** What a kept possibility c yields resolves the neighbours, with the flags
      exactly at the indices c holds. */
  lemma AttemptYields(g: Grid, i: nat, j: nat, c: seq<nat>, h: Grid)
    requires HintAt(g, i, j)
    requires IsCombination(c, 0, |Neighbors(g, i, j)|, Count(g, i, j))
    requires Attempt(g, i, j, c) == Some(h)
    ensures Resolves(g, i, j, h)
    ensures forall m :: 0 <= m < |Neighbors(g, i, j)| ==>
      (At(h, Neighbors(g, i, j)[m]) == FLG <==> m in c)
  {
    var ns := Neighbors(g, i, j);
    AttemptKept(g, i, j, c);
    AttemptGrid(g, i, j, c);
    SameShapeDims(g, h);
    forall p | p in ns ensures (At(h, p) == FLG || At(h, p) == EMT) && (At(g, p) == FLG ==> At(h, p) == FLG) {
      var m :| 0 <= m < |ns| && ns[m] == p;
    }
  }

  /** Conversely, a resolution flagged exactly at the indices of a combination
      c of the hint's count is what c yields. */
  lemma AttemptProduces(g: Grid, i: nat, j: nat, c: seq<nat>, h: Grid)
    requires HintAt(g, i, j)
    requires IsCombination(c, 0, |Neighbors(g, i, j)|, Count(g, i, j))
    requires Resolves(g, i, j, h)
    requires forall m :: 0 <= m < |Neighbors(g, i, j)| ==>
      (At(h, Neighbors(g, i, j)[m]) == FLG <==> m in c)
    ensures Attempt(g, i, j, c) == Some(h)
  {
    PreflagsHeld(g, i, j, c, h);
    AttemptKept(g, i, j, c);
    var h' := Attempt(g, i, j, c).value;
    AttemptGrid(g, i, j, c);
    ResolutionUnique(g, i, j, c, h', h);
  }

  /** A resolution keeps the flags already there, so a combination that
      flags exactly its flags holds every index flagged before. */
  lemma PreflagsHeld(g: Grid, i: nat, j: nat, c: seq<nat>, h: Grid)
    requires ValidPos(g, i, j) && Resolves(g, i, j, h)
    requires forall m :: 0 <= m < |Neighbors(g, i, j)| ==>
      (At(h, Neighbors(g, i, j)[m]) == FLG <==> m in c)
    ensures var ns := Neighbors(g, i, j);
      forall m :: 0 <= m < |ns| && At(g, ns[m]) == FLG ==> m in c
  {
    var ns := Neighbors(g, i, j);
    forall m | 0 <= m < |ns| && At(g, ns[m]) == FLG ensures m in c {
      assert ns[m] in ns;
    }
  }

  /** The grid flagged at the indices of c, blank at the other neighbours and
      g elsewhere is the only resolution flagged exactly at those indices. */
  lemma ResolutionUnique(g: Grid, i: nat, j: nat, c: seq<nat>, h1: Grid, h2: Grid)
    requires ValidPos(g, i, j)
    requires var ns := Neighbors(g, i, j);
      SameShape(g, h1)
      && (forall m :: 0 <= m < |ns| ==> At(h1, ns[m]) == if m in c then FLG else EMT)
      && (forall p :: InGrid(g, p) && p !in ns ==> At(h1, p) == At(g, p))
    requires Resolves(g, i, j, h2)
    requires forall m :: 0 <= m < |Neighbors(g, i, j)| ==>
      (At(h2, Neighbors(g, i, j)[m]) == FLG <==> m in c)
    ensures h1 == h2
  {
    var ns := Neighbors(g, i, j);
    SameShapeDims(g, h1);
    forall m | 0 <= m < |ns| ensures At(h1, ns[m]) == At(h2, ns[m]) {
      assert ns[m] in ns;
    }
    GridsAgree(g, h1, h2, ns);
  }

  /** Two grids shaped like g that agree with g off ns and with each other
      on ns are equal. */
  lemma GridsAgree(g: Grid, h1: Grid, h2: Grid, ns: seq<Pos>)
    requires SameShape(g, h1) && SameShape(g, h2) && AllIn(g, ns) && AllIn(h1, ns) && AllIn(h2, ns)
    requires forall m :: 0 <= m < |ns| ==> At(h1, ns[m]) == At(h2, ns[m])
    requires forall p :: InGrid(g, p) && p !in ns ==> InGrid(h1, p) && InGrid(h2, p) && At(h1, p) == At(g, p) && At(h2, p) == At(g, p)
    ensures h1 == h2
  {
    SameShapeDims(g, h1);
    SameShapeDims(g, h2);
    forall p | InGrid(h1, p) ensures At(h1, p) == At(h2, p) {
      if p in ns {
        var m :| 0 <= m < |ns| && ns[m] == p;
      }
    }
    GridExt(h1, h2);
  }

  /** Every grid `mark` returns resolves the neighbours, with exactly the
      hint's count of flags among them. */
  lemma MarkedSound(g: Grid, i: nat, j: nat, h: Grid)
    requires HintAt(g, i, j) && h in Marked(g, i, j)
    ensures Resolves(g, i, j, h)
    ensures CountStatus(h, Neighbors(g, i, j), FLG) == Count(g, i, j)
  {
    var ns := Neighbors(g, i, j);
    MarkedWitness(g, i, j, h);
    var c :| IsCombination(c, 0, |ns|, Count(g, i, j)) && Attempt(g, i, j, c) == Some(h);
    AttemptYields(g, i, j, c, h);
    IndexedCount(h, ns, c);
  }

  /** The indices below k whose neighbour is flagged in h, in increasing order. */
  function FlagIndices(h: Grid, ns: seq<Pos>, k: nat): (c: seq<nat>)
    requires AllIn(h, ns) && k <= |ns|
    ensures Increasing(c) && forall a :: 0 <= a < |c| ==> c[a] < k
    ensures forall m: nat :: m in c <==> m < k && At(h, ns[m]) == FLG
  {
    if k == 0 then []
    else
      var c0 := FlagIndices(h, ns, k - 1);
      if At(h, ns[k - 1]) == FLG then c0 + [k - 1] else c0
  }

  /** Every resolution with the hint's count of flags among the neighbours
      is among the grids `mark` returns. */
  lemma MarkedComplete(g: Grid, i: nat, j: nat, h: Grid)
    requires HintAt(g, i, j) && Resolves(g, i, j, h)
    requires CountStatus(h, Neighbors(g, i, j), FLG) == Count(g, i, j)
    ensures h in Marked(g, i, j)
  {
    var ns := Neighbors(g, i, j);
    var v := Count(g, i, j);
    var c := FlagIndices(h, ns, |ns|);
    IndexedCount(h, ns, c);
    var cs := Combinations(|ns|, v);
    CombinationsAre(|ns|, v);
    assert c in cs;
    var m :| 0 <= m < |cs| && cs[m] == c;
    AttemptProduces(g, i, j, c, h);
    MarkEachMember(AttemptAt(g, i, j), cs, |cs|, h);
    assert AttemptAt(g, i, j)(cs[m]) == Some(h);
  }

  /** A resolution with the hint's count of flags refines the grid and
      leaves the hint settled, hence valid. */
  lemma ResolvedSettles(g: Grid, i: nat, j: nat, h: Grid)
    requires HintAt(g, i, j) && Resolves(g, i, j, h)
    requires CountStatus(h, Neighbors(g, i, j), FLG) == Count(g, i, j)
    ensures Refines(g, h) && Settled(h, i, j) && IsValid(h, i, j)
  {
    var ns := Neighbors(g, i, j);
    SameShapeDims(g, h);
    SameShapeBlock(g, h, i, j);
    var b := Block(g, i, j);
    forall p | p in b && !RelevantTest(g, i, j)(p) ensures At(h, p) == At(g, p) && At(h, p) != FLG && At(h, p) != UNK {
      assert p !in ns;
    }
    CountFilter(h, b, RelevantTest(g, i, j), FLG);
    RefinesHint(g, h, i, j);
  }

  /** Every grid `mark` returns refines its input and settles the hint. */
  lemma MarkedSettles(g: Grid, i: nat, j: nat, h: Grid)
    requires HintAt(g, i, j) && h in Marked(g, i, j)
    ensures Refines(g, h) && Settled(h, i, j) && IsValid(h, i, j)
  {
    MarkedSound(g, i, j, h);
    ResolvedSettles(g, i, j, h);
  }

  /** `mark` returns at most C(k, v) grids for k neighbours and count v, and
      none when the count exceeds the neighbours. */
  lemma MarkedSize(g: Grid, i: nat, j: nat)
    requires HintAt(g, i, j)
    ensures |Marked(g, i, j)| <= Binomial(|Neighbors(g, i, j)|, Count(g, i, j))
    ensures Count(g, i, j) > |Neighbors(g, i, j)| ==> Marked(g, i, j) == []
  {
    CombinationsAre(|Neighbors(g, i, j)|, Count(g, i, j));
    CombinationsEdge(|Neighbors(g, i, j)|, Count(g, i, j));
  }

  /** A settled hint's grid resolves its own neighbours, all of them flags. */
  lemma SettledResolves(g: Grid, i: nat, j: nat)
    requires Settled(g, i, j)
    ensures Resolves(g, i, j, g)
    ensures CountStatus(g, Neighbors(g, i, j), FLG) == Count(g, i, j)
  {
    SettledNeighbors(g, i, j);
    CountAll(g, Neighbors(g, i, j), FLG);
  }

  /** A settled hint is valid, and `mark` gives back just the grid itself. */
  lemma SettledFixed(g: Grid, i: nat, j: nat)
    requires Settled(g, i, j)
    ensures IsValid(g, i, j) && Marked(g, i, j) == [g]
  {
    var ns := Neighbors(g, i, j);
    SettledNeighbors(g, i, j);
    SettledResolves(g, i, j);
    MarkedComplete(g, i, j, g);
    MarkedSize(g, i, j);
    BinomialAll(|ns|);
    OnlyOne(Marked(g, i, j), g);
  }

  lemma OnlyOne(gs: seq<Grid>, g: Grid)
    requires |gs| <= 1 && g in gs
    ensures gs == [g]
  {
  }

  /** A grid h that refines s and settles the hint agrees with s on the cells
      around the hint that are not neighbours, so its flags there are among
      the neighbours: there are the hint's count of them. */
  lemma SolutionFlags(s: Grid, i: nat, j: nat, h: Grid)
    requires HintAt(s, i, j) && Refines(s, h) && Settled(h, i, j)
    ensures AllIn(h, Neighbors(s, i, j))
    ensures CountStatus(h, Neighbors(s, i, j), FLG) == Count(s, i, j)
    ensures CountStatus(s, Block(s, i, j), FLG) <= Count(s, i, j)
  {
    SameShapeDims(s, h);
    SameShapeBlock(s, h, i, j);
    RefinesHint(s, h, i, j);
    var b := Block(s, i, j);
    CountMono(s, h, b, FLG);
    forall p | p in b && !RelevantTest(s, i, j)(p) ensures At(h, p) != FLG {
    }
    CountFilter(h, b, RelevantTest(s, i, j), FLG);
  }

  /** s with its neighbours taken from such an h is a resolution with the
      hint's count of flags, and h refines it. */
  lemma SolutionOverlay(s: Grid, i: nat, j: nat, h: Grid)
    requires HintAt(s, i, j) && Refines(s, h) && Settled(h, i, j)
    ensures var r := Overlay(s, h, Neighbors(s, i, j));
      Resolves(s, i, j, r) && CountStatus(r, Neighbors(s, i, j), FLG) == Count(s, i, j)
      && Refines(r, h)
  {
    var ns := Neighbors(s, i, j);
    SolutionFlags(s, i, j, h);
    SameShapeDims(s, h);
    SameShapeBlock(s, h, i, j);
    var r := Overlay(s, h, ns);
    SameShapeDims(s, r);
    forall p | p in ns ensures At(r, p) == FLG || At(r, p) == EMT {
      assert p in Block(h, i, j);
    }
    CountFrame(r, h, ns, FLG);
  }

  /** A grid h that refines s and settles the hint shows that s is valid
      there, and that `mark` returns a grid h still refines. */
  lemma MarkKeepsSolution(s: Grid, i: nat, j: nat, h: Grid)
    requires HintAt(s, i, j) && Refines(s, h) && Settled(h, i, j)
    ensures IsValid(s, i, j)
    ensures exists r :: r in Marked(s, i, j) && Refines(r, h)
  {
    SolutionFlags(s, i, j, h);
    SolutionOverlay(s, i, j, h);
    var r := Overlay(s, h, Neighbors(s, i, j));
    MarkedComplete(s, i, j, r);
  }
}
