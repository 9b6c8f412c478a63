/** The `Solver` of solver.py: a list of candidate grids that, hint after
    hint, is filtered by `is_valid` (`reduce`) and expanded by `mark`
    (`expand`), until a single candidate with no unknown cell is left. */
module Solving {
  import opened Wrappers
  import opened Cells
  import opened Grids
  import opened Hints

  /** (i, j) is a hint of every state. */
  predicate HintEverywhere(ss: seq<Grid>, i: nat, j: nat) {
    forall s :: s in ss ==> HintAt(s, i, j)
  }

  // ----- the two list comprehensions -----

  /** The elements of xs[..k] that keep accepts, in order. Unlike Grids.Filter,
      it names the prefix by its length, so the loop and the lemmas over
      states never slice the list. */
  function Filtered<T>(xs: seq<T>, keep: T -> bool, k: nat): (ys: seq<T>)
    requires k <= |xs|
    ensures |ys| <= k
  {
    if k == 0 then []
    else Filtered(xs, keep, k - 1) + if keep(xs[k - 1]) then [xs[k - 1]] else []
  }

  lemma {:induction false} FilteredMember<T>(xs: seq<T>, keep: T -> bool, k: nat, y: T)
    requires k <= |xs|
    ensures y in Filtered(xs, keep, k) <==> exists m :: 0 <= m < k && xs[m] == y && keep(y)
  {
    if k > 0 {
      FilteredMember(xs, keep, k - 1, y);
    }
  }

  /** Filtering by a test every element passes keeps them all, in order. */
  lemma {:induction false} FilteredAll<T>(xs: seq<T>, keep: T -> bool, k: nat)
    requires k <= |xs| && forall m :: 0 <= m < |xs| ==> keep(xs[m])
    ensures Filtered(xs, keep, k) == xs[..k]
  {
    if k > 0 {
      FilteredAll(xs, keep, k - 1);
      assert xs[..k] == xs[..k - 1] + [xs[k - 1]];
    }
  }

  /** The lists f gives for xs[..k], concatenated in order. */
  function Concatenated<T>(xs: seq<T>, f: T -> seq<T>, k: nat): seq<T>
    requires k <= |xs|
  {
    if k == 0 then [] else Concatenated(xs, f, k - 1) + f(xs[k - 1])
  }

  lemma {:induction false} ConcatenatedMember<T>(xs: seq<T>, f: T -> seq<T>, k: nat, y: T)
    requires k <= |xs|
    ensures y in Concatenated(xs, f, k) <==> exists m :: 0 <= m < k && y in f(xs[m])
  {
    if k > 0 {
      ConcatenatedMember(xs, f, k - 1, y);
    }
  }

  lemma ConcatenatedNext<T>(xs: seq<T>, f: T -> seq<T>, k0: nat, k: nat)
    requires k == k0 + 1 && k <= |xs|
    ensures Concatenated(xs, f, k) == Concatenated(xs, f, k0) + f(xs[k0])
  {
  }

  /** Concatenating the singletons of the elements gives the elements back. */
  lemma {:induction false} ConcatenatedSingletons<T>(xs: seq<T>, f: T -> seq<T>, k: nat)
    requires k <= |xs| && forall m :: 0 <= m < |xs| ==> f(xs[m]) == [xs[m]]
    ensures Concatenated(xs, f, k) == xs[..k]
  {
    if k > 0 {
      ConcatenatedSingletons(xs, f, k - 1);
      assert xs[..k] == xs[..k - 1] + [xs[k - 1]];
    }
  }

  // ----- reduce and expand at one hint -----

  /** The test of `reduce`: `is_valid` at the hint. */
  function ValidAt(i: nat, j: nat): Grid -> bool {
    s => HintAt(s, i, j) && IsValid(s, i, j)
  }

  /** The grids `mark` returns at the hint. */
  function MarkAt(i: nat, j: nat): Grid -> seq<Grid> {
    s => if HintAt(s, i, j) then Marked(s, i, j) else []
  }

  lemma MarkAtHint(s: Grid, i: nat, j: nat)
    requires HintAt(s, i, j)
    ensures MarkAt(i, j)(s) == Marked(s, i, j)
  {
  }

  /** `reduce`: the states valid at the hint, in order. */
  function Reduced(ss: seq<Grid>, i: nat, j: nat): (rs: seq<Grid>)
    ensures |rs| <= |ss|
  {
    Filtered(ss, ValidAt(i, j), |ss|)
  }

  /** `expand`: for each state, in order, the grids `mark` returns. */
  function Expanded(ss: seq<Grid>, i: nat, j: nat): seq<Grid> {
    Concatenated(ss, MarkAt(i, j), |ss|)
  }

  /** One hint's turn in `iterate`: `reduce`, then `expand`. */
  function Step(ss: seq<Grid>, i: nat, j: nat): seq<Grid> {
    Expanded(Reduced(ss, i, j), i, j)
  }

  /** A state survives `reduce` exactly when it is valid at the hint. */
  lemma ReducedMember(ss: seq<Grid>, i: nat, j: nat, s: Grid)
    requires HintEverywhere(ss, i, j)
    ensures HintEverywhere(Reduced(ss, i, j), i, j)
    ensures s in Reduced(ss, i, j) <==> s in ss && IsValid(s, i, j)
  {
    forall t | t in Reduced(ss, i, j) ensures HintAt(t, i, j) {
      FilteredMember(ss, ValidAt(i, j), |ss|, t);
    }
    FilteredMember(ss, ValidAt(i, j), |ss|, s);
  }

  /** A grid is in the expansion exactly when `mark` returns it for some state. */
  lemma ExpandedMember(ss: seq<Grid>, i: nat, j: nat, h: Grid)
    requires HintEverywhere(ss, i, j)
    ensures h in Expanded(ss, i, j) <==> exists s :: s in ss && h in Marked(s, i, j)
  {
    ConcatenatedMember(ss, MarkAt(i, j), |ss|, h);
    if h in Expanded(ss, i, j) {
      var m :| 0 <= m < |ss| && h in MarkAt(i, j)(ss[m]);
      assert ss[m] in ss;
    }
    forall s | s in ss && h in Marked(s, i, j) ensures h in Expanded(ss, i, j) {
      var m :| 0 <= m < |ss| && ss[m] == s;
      assert h in MarkAt(i, j)(ss[m]);
    }
  }

  /** The states after a step are the grids `mark` returns for the states
      that are valid at the hint. */
  lemma StepMember(ss: seq<Grid>, i: nat, j: nat, h: Grid)
    requires HintEverywhere(ss, i, j)
    ensures h in Step(ss, i, j) <==> exists s :: s in ss && IsValid(s, i, j) && h in Marked(s, i, j)
  {
    var rs := Reduced(ss, i, j);
    ReducedMember(ss, i, j, h);
    ExpandedMember(rs, i, j, h);
    if h in Step(ss, i, j) {
      var s :| s in rs && h in Marked(s, i, j);
      ReducedMember(ss, i, j, s);
    }
    forall s | s in ss && IsValid(s, i, j) && h in Marked(s, i, j) ensures h in Step(ss, i, j) {
      ReducedMember(ss, i, j, s);
    }
  }

  /** A step leaves the states alone when every state has the hint settled. */
  lemma StepSettled(ss: seq<Grid>, i: nat, j: nat)
    requires forall s :: s in ss ==> Settled(s, i, j)
    ensures Step(ss, i, j) == ss
  {
    forall m | 0 <= m < |ss| ensures ValidAt(i, j)(ss[m]) && MarkAt(i, j)(ss[m]) == [ss[m]] {
      assert ss[m] in ss;
      SettledFixed(ss[m], i, j);
    }
    FilteredAll(ss, ValidAt(i, j), |ss|);
    assert ss[..|ss|] == ss;
    ConcatenatedSingletons(ss, MarkAt(i, j), |ss|);
  }

  // ----- candidates and solutions -----

  /** Every state keeps what the initial grid shows. */
  ghost predicate Candidates(g0: Grid, ss: seq<Grid>) {
    forall s :: s in ss ==> Refines(g0, s)
  }

  lemma CandidatesHint(g0: Grid, ss: seq<Grid>, i: nat, j: nat)
    requires Candidates(g0, ss) && HintAt(g0, i, j)
    ensures HintEverywhere(ss, i, j)
  {
    forall s | s in ss ensures HintAt(s, i, j) {
      RefinesHint(g0, s, i, j);
    }
  }

  /** A step keeps the states candidates of the initial grid. */
  lemma StepCandidates(g0: Grid, ss: seq<Grid>, i: nat, j: nat)
    requires HintAt(g0, i, j) && Candidates(g0, ss)
    ensures HintEverywhere(ss, i, j) && Candidates(g0, Step(ss, i, j))
  {
    CandidatesHint(g0, ss, i, j);
    forall h | h in Step(ss, i, j) ensures Refines(g0, h) {
      StepMember(ss, i, j, h);
      var s :| s in ss && IsValid(s, i, j) && h in Marked(s, i, j);
      MarkedSettles(s, i, j, h);
      RefinesTrans(g0, s, h);
    }
  }

  /** Every given hint is settled in every state. */
  ghost predicate SettledOn(ss: seq<Grid>, hs: seq<Pos>) {
    forall s, p :: s in ss && p in hs ==> Settled(s, p.0, p.1)
  }

  /** A state after a step has the hint settled, and keeps settled every
      hint that was settled in all the states before. */
  lemma StepSettlesOne(ss: seq<Grid>, i: nat, j: nat, hs: seq<Pos>, h: Grid)
    requires HintEverywhere(ss, i, j) && SettledOn(ss, hs) && h in Step(ss, i, j)
    ensures Settled(h, i, j)
    ensures forall p :: p in hs ==> Settled(h, p.0, p.1)
  {
    StepMember(ss, i, j, h);
    var s :| s in ss && IsValid(s, i, j) && h in Marked(s, i, j);
    MarkedSettles(s, i, j, h);
    forall p | p in hs ensures Settled(h, p.0, p.1) {
      RefinesSettled(s, h, p.0, p.1);
    }
  }

  /** After a step every state has the hint settled, and the hints that were
      settled in every state stay settled. */
  lemma StepSettles(ss: seq<Grid>, i: nat, j: nat, hs: seq<Pos>)
    requires HintEverywhere(ss, i, j) && SettledOn(ss, hs)
    ensures SettledOn(Step(ss, i, j), hs + [(i, j)])
  {
    forall h | h in Step(ss, i, j) ensures forall p :: p in hs + [(i, j)] ==> Settled(h, p.0, p.1) {
      StepSettlesOne(ss, i, j, hs, h);
    }
  }

  /** g with every hint settled and every cell known, keeping what g0 shows. */
  ghost predicate Solves(g0: Grid, h: Grid)
    requires Rectangular(g0)
  {
    Refines(g0, h) && NoUnknown(h) && forall p :: p in NumPositions(g0) ==> Settled(h, p.0, p.1)
  }

  lemma SolvesSettles(g0: Grid, h: Grid, m: nat)
    requires Rectangular(g0) && Solves(g0, h) && m < |NumPositions(g0)|
    ensures Settled(h, NumPositions(g0)[m].0, NumPositions(g0)[m].1)
  {
    assert NumPositions(g0)[m] in NumPositions(g0);
  }

  /** h refines one of the states. */
  ghost predicate Covered(ss: seq<Grid>, h: Grid) {
    exists s :: s in ss && Refines(s, h)
  }

  /** A grid that settles the hint and refines a state refines a state after
      the step: no such grid is dropped. */
  lemma StepCovers(ss: seq<Grid>, i: nat, j: nat, h: Grid)
    requires HintEverywhere(ss, i, j) && Settled(h, i, j) && Covered(ss, h)
    ensures Covered(Step(ss, i, j), h)
  {
    var s :| s in ss && Refines(s, h);
    MarkKeepsSolution(s, i, j, h);
    var r :| r in Marked(s, i, j) && Refines(r, h);
    StepMember(ss, i, j, r);
  }

  /** The only grid that refines a grid with no unknown cell is that grid. */
  lemma RefinesKnown(g: Grid, h: Grid)
    requires NoUnknown(g) && Refines(g, h)
    ensures h == g
  {
    SameShapeDims(g, h);
    GridExt(h, g);
  }

  // ----- iterate -----

  /** f applied for the rounds 0, ..., k - 1 in turn, starting from x. */
  function Iterated<T>(x: T, f: (T, nat) -> T, k: nat): T {
    if k == 0 then x else f(Iterated(x, f, k - 1), k - 1)
  }

  lemma IteratedNext<T>(x: T, f: (T, nat) -> T, k0: nat, k: nat)
    requires k == k0 + 1
    ensures Iterated(x, f, k) == f(Iterated(x, f, k0), k0)
  {
  }

  /** Round m of `iterate`: the step at the m-th hint. */
  function HintStep(ps: seq<Pos>): (seq<Grid>, nat) -> seq<Grid> {
    (ts: seq<Grid>, m: nat) => if m < |ps| then Step(ts, ps[m].0, ps[m].1) else ts
  }

  lemma HintStepAt(ps: seq<Pos>, ts: seq<Grid>, m: nat)
    requires m < |ps|
    ensures HintStep(ps)(ts, m) == Step(ts, ps[m].0, ps[m].1)
  {
  }

  /** The steps at hs[0], ..., hs[k - 1] in turn, starting from ss. */
  function Rounds(hs: seq<Pos>, ss: seq<Grid>, k: nat): seq<Grid> {
    Iterated(ss, HintStep(hs), k)
  }

  /** `iterate` over the first k hints of g0, in the order `Solver.hints`
      lists them. */
  function Sweep(g0: Grid, ss: seq<Grid>, k: nat): seq<Grid>
    requires Rectangular(g0)
  {
    Rounds(NumPositions(g0), ss, k)
  }

  /** The step of hint k0 turns the sweep over k0 hints into the sweep over
      k = k0 + 1. */
  lemma SweepNext(g0: Grid, ss: seq<Grid>, k0: nat, k: nat)
    requires Rectangular(g0) && k == k0 + 1 && k <= |NumPositions(g0)|
    ensures var p := NumPositions(g0)[k0];
      Sweep(g0, ss, k) == Step(Sweep(g0, ss, k0), p.0, p.1)
  {
    var ps := NumPositions(g0);
    IteratedNext(ss, HintStep(ps), k0, k);
    HintStepAt(ps, Sweep(g0, ss, k0), k0);
  }

  /** Round k0 of `iterate`, at hint (i, j) = hs[k0]: reducing the states
      after k0 rounds and expanding the result gives the states after
      k = k0 + 1 rounds. */
  lemma RoundsNext(hs: seq<Pos>, ss: seq<Grid>, k0: nat, k: nat, i: nat, j: nat, rs: seq<Grid>, es: seq<Grid>)
    requires k == k0 + 1 && k <= |hs| && hs[k0] == (i, j)
    requires rs == Reduced(Rounds(hs, ss, k0), i, j) && es == Expanded(rs, i, j)
    ensures es == Rounds(hs, ss, k)
  {
    IteratedNext(ss, HintStep(hs), k0, k);
    HintStepAt(hs, Rounds(hs, ss, k0), k0);
  }

  /** Sweeping keeps the states candidates of g0. */
  lemma {:induction false} SweepCandidates(g0: Grid, ss: seq<Grid>, k: nat)
    requires Rectangular(g0) && Candidates(g0, ss) && k <= |NumPositions(g0)|
    ensures Candidates(g0, Sweep(g0, ss, k))
  {
    if k > 0 {
      var k0: nat := k - 1;
      SweepCandidates(g0, ss, k0);
      var p := NumPositions(g0)[k0];
      assert p in NumPositions(g0);
      SweepNext(g0, ss, k0, k);
      StepCandidates(g0, Sweep(g0, ss, k0), p.0, p.1);
    }
  }

  /** The hint of round k0 is a hint of every state the earlier rounds leave. */
  lemma SweepHint(g0: Grid, ss: seq<Grid>, k0: nat)
    requires Rectangular(g0) && Candidates(g0, ss) && k0 < |NumPositions(g0)|
    ensures var p := NumPositions(g0)[k0];
      HintAt(g0, p.0, p.1) && HintEverywhere(Sweep(g0, ss, k0), p.0, p.1)
  {
    var p := NumPositions(g0)[k0];
    assert p in NumPositions(g0);
    SweepCandidates(g0, ss, k0);
    CandidatesHint(g0, Sweep(g0, ss, k0), p.0, p.1);
  }

  lemma PrefixNext<T>(xs: seq<T>, k0: nat, k: nat)
    requires k == k0 + 1 && k <= |xs|
    ensures xs[..k] == xs[..k0] + [xs[k0]]
  {
  }

  lemma PrefixAll<T>(xs: seq<T>)
    ensures xs[..|xs|] == xs
  {
  }

  lemma SettledOnSame(ss: seq<Grid>, ts: seq<Grid>, hs: seq<Pos>, ks: seq<Pos>)
    requires SettledOn(ss, hs) && ss == ts && hs == ks
    ensures SettledOn(ts, ks)
  {
  }

  lemma SettledOnAt(ss: seq<Grid>, hs: seq<Pos>, p: Pos)
    requires SettledOn(ss, hs) && p in hs
    ensures forall s :: s in ss ==> Settled(s, p.0, p.1)
  {
  }

  lemma CoveredSame(ss: seq<Grid>, ts: seq<Grid>, h: Grid)
    requires Covered(ss, h) && ss == ts
    ensures Covered(ts, h)
  {
  }

  /** After k hints, each of them is settled in every state. */
  lemma {:induction false} SweepSettles(g0: Grid, ss: seq<Grid>, k: nat)
    requires Rectangular(g0) && Candidates(g0, ss) && k <= |NumPositions(g0)|
    ensures SettledOn(Sweep(g0, ss, k), NumPositions(g0)[..k])
  {
    if k > 0 {
      var k0: nat := k - 1;
      SweepSettles(g0, ss, k0);
      var ps := NumPositions(g0);
      var p := ps[k0];
      SweepNext(g0, ss, k0, k);
      SweepHint(g0, ss, k0);
      StepSettles(Sweep(g0, ss, k0), p.0, p.1, ps[..k0]);
      PrefixNext(ps, k0, k);
      SettledOnSame(Step(Sweep(g0, ss, k0), p.0, p.1), Sweep(g0, ss, k), ps[..k0] + [p], ps[..k]);
    }
  }

  /** A grid that settles hint k0 and is covered after k0 hints is covered
      after k = k0 + 1. */
  lemma SweepCoversNext(g0: Grid, ss: seq<Grid>, k0: nat, k: nat, h: Grid)
    requires Rectangular(g0) && Candidates(g0, ss) && k == k0 + 1 && k <= |NumPositions(g0)|
    requires Settled(h, NumPositions(g0)[k0].0, NumPositions(g0)[k0].1)
    requires Covered(Sweep(g0, ss, k0), h)
    ensures Covered(Sweep(g0, ss, k), h)
  {
    var p := NumPositions(g0)[k0];
    SweepNext(g0, ss, k0, k);
    SweepHint(g0, ss, k0);
    StepCovers(Sweep(g0, ss, k0), p.0, p.1, h);
    CoveredSame(Step(Sweep(g0, ss, k0), p.0, p.1), Sweep(g0, ss, k), h);
  }

  /** No solution of g0 is dropped by a sweep. */
  lemma {:induction false} SweepCovers(g0: Grid, ss: seq<Grid>, k: nat, h: Grid)
    requires Rectangular(g0) && Candidates(g0, ss) && k <= |NumPositions(g0)|
    requires Solves(g0, h) && Covered(ss, h)
    ensures Covered(Sweep(g0, ss, k), h)
  {
    if k > 0 {
      var k0: nat := k - 1;
      SweepCovers(g0, ss, k0, h);
      SolvesSettles(g0, h, k0);
      SweepCoversNext(g0, ss, k0, k, h);
    }
  }

  /** A sweep leaves states that have every hint settled alone. */
  lemma {:induction false} SweepSettled(g0: Grid, ss: seq<Grid>, k: nat)
    requires Rectangular(g0) && Candidates(g0, ss) && k <= |NumPositions(g0)|
    requires SettledOn(ss, NumPositions(g0))
    ensures Sweep(g0, ss, k) == ss
  {
    if k > 0 {
      var k0: nat := k - 1;
      SweepSettled(g0, ss, k0);
      var p := NumPositions(g0)[k0];
      assert p in NumPositions(g0);
      SweepNext(g0, ss, k0, k);
      SettledOnAt(ss, NumPositions(g0), p);
      StepSettled(ss, p.0, p.1);
    }
  }

  /** A second sweep over all the hints changes nothing: once `iterate` has
      run, further iterations keep the same states. */
  lemma SweepIdempotent(g0: Grid, ss: seq<Grid>)
    requires Rectangular(g0) && Candidates(g0, ss)
    ensures var ts := Sweep(g0, ss, |NumPositions(g0)|);
      Sweep(g0, ts, |NumPositions(g0)|) == ts
  {
    var ps := NumPositions(g0);
    var ts := Sweep(g0, ss, |ps|);
    SweepSettles(g0, ss, |ps|);
    SweepCandidates(g0, ss, |ps|);
    PrefixAll(ps);
    SettledOnSame(ts, ts, ps[..|ps|], ps);
    SweepSettled(g0, ts, |ps|);
  }

  // ----- the solver -----

  /** What `finished` raises: `states[0]` on an empty state list. */
  datatype SolverError = NoStates

  /** `Solver`: the initial grid, its hints, the candidate states and the
      final state `run` sets. */
  class Solver {
    const initialGrid: Grid
    const hints: seq<Pos>
    var states: seq<Grid>
    var finalState: Option<Grid>

    /** The hints are the initial grid's, every state refines the initial
        grid, and every solution of the initial grid refines some state, so
        no solution is ever dropped. */
    ghost predicate Valid()
      reads this
    {
      Rectangular(initialGrid) && hints == NumPositions(initialGrid)
      && Candidates(initialGrid, states)
      && forall h :: Solves(initialGrid, h) ==> Covered(states, h)
    }

    /** `Solver(grid)`: one state, the grid itself, and the hint cells in
        row-major order. */
    constructor (grid: Grid)
      requires Rectangular(grid)
      ensures initialGrid == grid && hints == NumPositions(grid)
      ensures states == [grid] && finalState == None
      ensures Valid()
    {
      initialGrid := grid;
      hints := NumPositions(grid);
      states := [grid];
      finalState := None;
      new;
      assert Refines(grid, grid) by {
        forall p | InGrid(grid, p) ensures At(grid, p) == At(grid, p) {
        }
      }
      forall h | Solves(grid, h) ensures Covered([grid], h) {
        assert grid in [grid];
      }
    }

    /** `reduce(i, j)`: keep the states that are valid at the hint, in order. */
    method Reduce(i: nat, j: nat)
      requires Valid() && (i, j) in hints
      modifies this
      ensures HintEverywhere(old(states), i, j)
      ensures states == Reduced(old(states), i, j)
      ensures finalState == old(finalState)
      ensures Valid()
    {
      CandidatesHint(initialGrid, states, i, j);
      ReduceKeeps(initialGrid, states, i, j);
      states := Reduced(states, i, j);
    }

    /** `expand(i, j)`: replace each state, in order, by the grids `mark`
        returns for it. */
    method Expand(i: nat, j: nat)
      requires Valid() && (i, j) in hints
      modifies this
      ensures HintEverywhere(old(states), i, j)
      ensures states == Expanded(old(states), i, j)
      ensures finalState == old(finalState)
      ensures Valid()
    {
      CandidatesHint(initialGrid, states, i, j);
      ExpandKeeps(initialGrid, states, i, j);
      var prev := states;
      var next := [];
      for k := 0 to |prev|
        invariant next == Concatenated(prev, MarkAt(i, j), k)
        invariant unchanged(this)
      {
        assert prev[k] in prev;
        var gs := Mark(prev[k], i, j);
        ConcatenatedNext(prev, MarkAt(i, j), k, k + 1);
        MarkAtHint(prev[k], i, j);
        next := next + gs;
      }
      states := next;
    }

    /** `iterate()`: `reduce` then `expand` at every hint, in order. */
    method Iterate()
      requires Valid()
      modifies this
      ensures states == Sweep(initialGrid, old(states), |hints|)
      ensures finalState == old(finalState)
      ensures Valid()
    {
      ghost var ss := states;
      for k := 0 to |hints|
        invariant Valid() && finalState == old(finalState)
        invariant states == Rounds(hints, ss, k)
      {
        Round(ss, k);
      }
    }

    /** The body of `iterate`'s loop: `reduce` then `expand` at hints[k]. */
    method Round(ghost ss: seq<Grid>, k: nat)
      requires Valid() && k < |hints| && states == Rounds(hints, ss, k)
      modifies this
      ensures states == Rounds(hints, ss, k + 1)
      ensures finalState == old(finalState)
      ensures Valid()
    {
      var (i, j) := hints[k];
      assert (i, j) in hints;
      Reduce(i, j);
      ghost var reduced := states;
      Expand(i, j);
      RoundsNext(hints, ss, k, k + 1, i, j, reduced, states);
    }

    /** `finished()`: false while more than one state is left; with one
        state, whether its grid has no unknown cell; with none, an error. */
    function Finished(): (r: Result<bool, SolverError>)
      reads this
      ensures r == Ok(true) <==> |states| == 1 && NoUnknown(states[0])
      ensures r == Ok(false) <==> |states| > 1 || (|states| == 1 && !NoUnknown(states[0]))
      ensures r.Err? <==> states == []
    {
      if |states| > 1 then Ok(false)
      else if |states| == 0 then Err(NoStates)
      else Ok(NoUnknown(states[0]))
    }

    /** `run(timeout)`, with the clock replaced by a budget of iterations:
        iterate until `finished`, or until the budget is spent, which is the
        timeout. The result is the number of iterations done. Without a
        timeout the only remaining state is the final state, and it is the
        initial grid's one solution; when the list runs empty, `finished`
        fails and so does `run`. */
    method Run(fuel: nat) returns (r: Result<nat, SolverError>)
      requires Valid()
      modifies this
      ensures Valid()
      ensures r.Err? ==> states == [] && finalState == old(finalState)
      ensures r.Ok? ==> r.value <= fuel
      ensures r.Ok? && finalState.None? ==> r.value == fuel && Finished() == Ok(false)
      ensures r.Ok? && finalState.Some? ==> Finished() == Ok(true) && finalState == Some(states[0])
      ensures r.Ok? && finalState.Some? ==> forall h :: Solves(initialGrid, h) ==> h == states[0]
      ensures r.Ok? && finalState.Some? && r.value > 0 ==> Solves(initialGrid, states[0])
      ensures r.Ok? && r.value == 0 ==> states == old(states)
      ensures r.Ok? && r.value > 0 ==> states == Sweep(initialGrid, old(states), |hints|)
    {
      ghost var s0 := states;
      var count: nat := 0;
      var timedOut := false;
      var done :- Finished();
      while !done
        invariant Valid() && finalState == old(finalState)
        invariant count <= fuel && !timedOut
        invariant Finished() == Ok(done)
        invariant count > 0 ==> SettledOn(states, hints)
        invariant count == 0 ==> states == s0
        invariant count > 0 ==> states == Sweep(initialGrid, s0, |hints|)
        decreases fuel - count
      {
        if count == fuel {
          timedOut := true;
          break;
        }
        ghost var before := states;
        Iterate();
        if count > 0 {
          SweepIdempotent(initialGrid, s0);
        }
        SweepSettles(initialGrid, before, |hints|);
        assert hints[..|hints|] == hints;
        count := count + 1;
        done :- Finished();
      }
      if timedOut {
        finalState := None;
      } else {
        OnlyState(initialGrid, states);
        finalState := Some(states[0]);
      }
      r := Ok(count);
    }
  }

  /** A single state with no unknown cell that covers every solution is the
      only solution there can be, and a solution when it settles every hint. */
  lemma OnlyState(g0: Grid, ss: seq<Grid>)
    requires Rectangular(g0) && Candidates(g0, ss) && |ss| == 1 && NoUnknown(ss[0])
    requires forall h :: Solves(g0, h) ==> Covered(ss, h)
    ensures forall h :: Solves(g0, h) ==> h == ss[0]
    ensures SettledOn(ss, NumPositions(g0)) ==> Solves(g0, ss[0])
  {
    forall h | Solves(g0, h) ensures h == ss[0] {
      var s :| s in ss && Refines(s, h);
      RefinesKnown(s, h);
    }
    assert ss[0] in ss;
  }

  /** `reduce` keeps the candidates and every solution's state. */
  lemma ReduceKeeps(g0: Grid, ss: seq<Grid>, i: nat, j: nat)
    requires Rectangular(g0) && (i, j) in NumPositions(g0) && Candidates(g0, ss)
    requires forall h :: Solves(g0, h) ==> Covered(ss, h)
    ensures HintEverywhere(ss, i, j)
    ensures Candidates(g0, Reduced(ss, i, j))
    ensures forall h :: Solves(g0, h) ==> Covered(Reduced(ss, i, j), h)
  {
    CandidatesHint(g0, ss, i, j);
    var rs := Reduced(ss, i, j);
    forall s | s in rs ensures Refines(g0, s) {
      ReducedMember(ss, i, j, s);
    }
    forall h | Solves(g0, h) ensures Covered(rs, h) {
      var s :| s in ss && Refines(s, h);
      MarkKeepsSolution(s, i, j, h);
      ReducedMember(ss, i, j, s);
    }
  }

  /** `expand` keeps the candidates and every solution's state. */
  lemma ExpandKeeps(g0: Grid, ss: seq<Grid>, i: nat, j: nat)
    requires Rectangular(g0) && (i, j) in NumPositions(g0) && Candidates(g0, ss)
    requires forall h :: Solves(g0, h) ==> Covered(ss, h)
    ensures HintEverywhere(ss, i, j)
    ensures Candidates(g0, Expanded(ss, i, j))
    ensures forall h :: Solves(g0, h) ==> Covered(Expanded(ss, i, j), h)
  {
    CandidatesHint(g0, ss, i, j);
    var es := Expanded(ss, i, j);
    forall h | h in es ensures Refines(g0, h) {
      ExpandedMember(ss, i, j, h);
      var s :| s in ss && h in Marked(s, i, j);
      MarkedSettles(s, i, j, h);
      RefinesTrans(g0, s, h);
    }
    forall h | Solves(g0, h) ensures Covered(es, h) {
      var s :| s in ss && Refines(s, h);
      MarkKeepsSolution(s, i, j, h);
      var r :| r in Marked(s, i, j) && Refines(r, h);
      ExpandedMember(ss, i, j, r);
    }
  }
}
