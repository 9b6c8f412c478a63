# Minesweeper board and branch-and-prune solver

This project models the board and the solver of a small Minesweeper
deduction engine in Dafny.

A board is a grid of cells. Each cell is one of:

- a hint `NUM(v)`, the number of mines around it;
- a blank `EMT`;
- an unknown `UNK`;
- a flag `FLG`.

The text form puts one row per line, and each cell is a bracketed token (`[1]`, `[ ]`, `[?]`, `[*]`).

The solver keeps a list of candidate grids ("states"). One iteration visits every hint in row-major order and does two things:

- `reduce` drops the states in which the hint sees more flags than its number.
- `expand` replaces each state by every way of placing the hint's number of flags among the hint's unknown-or-flagged neighbours, with the remaining unknown neighbours made blank (`mark`).

`run` iterates until one state without unknown cells is left, or until the time budget is spent.

The model is split into seven modules:

- `Wrappers`: `Option` and `Result`.
- `Cells`: the cell statuses, the token parser `from_string` and the token printer `to_string`. `Cell` is the mutable cell.
- `Grids`: a grid is a value `seq<seq<Status>>`. This module holds:
  - the dimensions `nrows` and `ncols`;
  - the clipped neighbourhood of `get_aware`, including its quirk at row 1 and column 1;
  - the hint list of `get_nums`.
- `GridText`: `Grid.from_string` and `Grid.to_string`, and their round trip.
- `Combinatorics`: `itertools.combinations(range(n), k)`.
- `Hints`: `is_valid`, `unmark` and `mark`, with what `mark` produces:
  - sound: every grid it returns resolves the hint's neighbours with the hint's count of flags;
  - complete: every such resolution is returned;
  - bounded by a binomial coefficient.
- `Solving`: `reduce`, `expand` and `iterate` as functions on state lists, and the `Solver` class.

The descriptions are built on three predicates:

- **Refines(g, h)**: h has the same shape as g, keeps every known cell of g, and may only turn unknown cells into blanks or flags.
- **Settled(h, i, j)**: hint (i, j) has no unknown cell in its block, and has exactly its number of flags there.
- **Solves(g0, h)**: h refines g0, has no unknown cell, and settles every hint.

The solver's invariant `Valid` says these things:

- every state refines the initial grid;
- the hint list is the initial grid's;
- every solution of the initial grid refines some state, so no solution is ever pruned.

With that invariant, a finished run's final state is the only solution there can be. It is a solution whenever at least one iteration ran.

The model also proves that a second sweep over the hints changes nothing (`Solving.SweepIdempotent`).

## Model

| member | source | states |
|---|---|---|
| Cells.ParseCell | minesweeper/src/minesweeper/board.py:58-71 | For a token that does not start with a blank: a token holding a blank is EMT, else one holding `*` is FLG, else one holding `?` is UNK, else one starting with `[d]`, d a digit 0-8, is NUM(d). Any other token fails with InvalidCellToken carrying the token. A parsed count is never above 8. |
| Cells.TokenRoundTrip | minesweeper/src/minesweeper/board.py:43-71 | Every status with a count of at most 8 parses back from its own token. |
| Cells.NineIsRejected | minesweeper/src/minesweeper/board.py:68-71 | The token of NUM(9) is `[9]`, and the parser rejects it. |
| Cells.Cell.constructor | minesweeper/src/minesweeper/board.py:46-56 | A new cell holds the given status (the `emt`, `unk` and `num` factories). |
| Cells.Cell.AsFlagged | minesweeper/src/minesweeper/board.py:37-38 | Afterwards the cell is a flag, whatever it was. |
| Cells.Cell.AsEmpty | minesweeper/src/minesweeper/board.py:40-41 | Afterwards the cell is blank, whatever it was. |
| Cells.Cell.ToString | minesweeper/src/minesweeper/board.py:43-44 | The token is bracketed, and for a count of at most 8 it parses back to the cell's status. |
| Cells.Cell.FromString | minesweeper/src/minesweeper/board.py:58-71 | Succeeds exactly when the token parses. Then the result is a fresh cell with the parsed status; otherwise the error is the parser's. |
| Grids.MakeGrid | minesweeper/src/minesweeper/board.py:83-84 | A grid always has a row: no rows becomes one empty row, and any other rows are kept. |
| Grids.NRows | minesweeper/src/minesweeper/board.py:142-143 | At most the number of rows. It is 0 exactly when every row is empty, all the rows exactly when none is empty, and all the rows for a non-empty rectangular grid. |
| Grids.NRowsCounts | minesweeper/src/minesweeper/board.py:142-143 | `nrows` is exactly the number of non-empty rows, wherever they are. |
| Grids.NCols | minesweeper/src/minesweeper/board.py:145-146 | 0 when no row is non-empty. Otherwise it is the length of some row, and for a rectangular grid the length of every row. |
| Grids.SetAt | minesweeper/src/minesweeper/board.py:37-41 | Overwriting one cell in place changes that cell of the grid and no other cell. |
| Grids.Block | minesweeper/src/minesweeper/board.py:109-115 | The block scanned around (i, j) is exactly the positions within the clipped row and column ranges. It holds the centre, lies inside the grid, has at most 9 positions, and is in row-major order. |
| Grids.Neighbors | minesweeper/src/minesweeper/board.py:118-131 | The neighbours are exactly the block's unknown or flagged cells other than the centre, in row-major order, and at most 8 of them. |
| Grids.BlockIsClippedNeighbourhood | minesweeper/src/minesweeper/board.py:111-115 | The block is the 3x3 neighbourhood clipped at the grid's edges, less row 0 when i is 1 and column 0 when j is 1. |
| Grids.RowOneMissesRowZero | minesweeper/src/minesweeper/board.py:111 | An unknown cell directly above a hint on row 1 is not among that hint's neighbours. |
| Grids.GetAware | minesweeper/src/minesweeper/board.py:108-131 | The view's grid is g itself, its main cell is g's cell at (i, j), and its neighbours are the relevant neighbours (at most 8). |
| Grids.NumPositions | minesweeper/src/minesweeper/board.py:133-140 | The hint positions are exactly the numbered cells of the grid, in row-major order. |
| Grids.GetNums | minesweeper/src/minesweeper/board.py:133-140 | The hint cells, one per hint position, in the same order. Each is a number. |
| Grids.GetNumsAware | minesweeper/src/minesweeper/board.py:133-140 | One aware view per hint position, in the same order. Each is a view of g whose main cell is g's number at that position and whose neighbours are that hint's neighbours. |
| GridText.SplitLines | minesweeper/src/minesweeper/board.py:94 | Cuts the text at every line break Python's `splitlines` recognises. There is one more piece than there are breaks, and no piece holds a break. Putting the breaks back between the pieces gives the text. |
| GridText.NonBlank | minesweeper/src/minesweeper/board.py:95 | A line is kept exactly when it is one of the input lines and holds a non-blank character. |
| GridText.NonBlankAppend | minesweeper/src/minesweeper/board.py:94-95 | Dropping blank lines distributes over concatenation, so the kept lines stay in the input's order. |
| GridText.NonBlankOne | minesweeper/src/minesweeper/board.py:95 | A single line is kept exactly when it is not blank. |
| GridText.CloseBracket | minesweeper/src/minesweeper/board.py:92 | When it finds one, the offset is that of a `]` with no `]` and no newline before it: the first closing bracket of the line. When it finds none, every `]` has a newline before it. |
| GridText.FindTokens | minesweeper/src/minesweeper/board.py:92 | Every token found runs from a `[` to the first `]` after it: there is no `]` and no newline inside it, as the lazy `.*?` demands. |
| GridText.FindTokensLazy | minesweeper/src/minesweeper/board.py:92 | A line that starts with `[`, a stretch without `]` or newline, and `]` yields that span as its first token, and then the tokens of the rest of the line. |
| GridText.FindTokensSkip | minesweeper/src/minesweeper/board.py:92 | Text without a `[` in front of the rest of a line adds no token. |
| GridText.ParseRow | minesweeper/src/minesweeper/board.py:90-93 | Succeeds exactly when every token parses, giving one cell per token. The error is that of the first token that fails. |
| GridText.ParseRows | minesweeper/src/minesweeper/board.py:89-96 | Succeeds exactly when every line's tokens parse, giving one row per line. |
| GridText.ParseRowsError | minesweeper/src/minesweeper/board.py:89-96 | When parsing fails, the error is that of the first line whose tokens fail to parse; every earlier line parses. |
| GridText.GridFromString | minesweeper/src/minesweeper/board.py:86-97 | Succeeds exactly when every token on every non-blank line parses. Row k is then the parsed tokens of non-blank line k. Text without a non-blank line gives the grid of one empty row. Every cell is printable. On failure the error is that of the first non-blank line that fails, so of the first bad token in text order. |
| GridText.RowToString | minesweeper/src/minesweeper/board.py:100 | The line holds no line break. A non-empty row gives a non-blank line starting with `[`. When every cell is printable, scanning the line for tokens gives back the row's cell tokens in order. |
| GridText.GridToString | minesweeper/src/minesweeper/board.py:99-100 | For a grid with at least one row, splitting the text at line breaks gives back exactly the rows' lines, one per row in order. |
| GridText.GridRoundTrip | minesweeper/src/minesweeper/board.py:86-100 | Printing a grid and parsing the text gives the grid back. This holds when the grid is one empty row or has no empty row, and no count is above 8. |
| GridText.TextRoundTrip | minesweeper/src/minesweeper/board.py:86-100 | For text that parses and has a non-blank line, printing the parsed grid gives one line per non-blank line. Scanning printed line k gives the printer's tokens of row k, so every source token returns in its printer's form, with whitespace normalised. A line whose tokens are already in that form returns with exactly its own tokens. |
| GridText.ReparseStable | minesweeper/src/minesweeper/board.py:86-100 | For text that parses and has a token on every non-blank line, parsing the printed grid gives the same grid as parsing the text. |
| GridText.NineFailsToParse | minesweeper/src/minesweeper/board.py:86-100 | The text `[9]` does not parse as a grid. |
| Combinatorics.CombinationsAre | minesweeper/src/minesweeper/solver.py:30 | There are C(n, k) combinations, and they are exactly the increasing k-subsets of 0..n-1. |
| Combinatorics.CombinationsEdge | minesweeper/src/minesweeper/solver.py:30 | No combinations when k > n, and exactly one when k == n. |
| Combinatorics.CombinationsOrdered | minesweeper/src/minesweeper/solver.py:30 | Each combination comes before the next in lexicographic order, as `itertools` yields them. This fixes the order of the grids `mark` returns, and so the order of the states. |
| Hints.IsValid | minesweeper/src/minesweeper/solver.py:12-16 | A hint is valid exactly when its block holds no more flags than its number. |
| Hints.FlagsAreNeighbors | minesweeper/src/minesweeper/solver.py:15 | Counting flags over the neighbours is counting them over the whole block. |
| Hints.Unmarked | minesweeper/src/minesweeper/solver.py:19-24 | The result has the same shape. The unknown neighbours of the hint become blank, and every other cell is unchanged. |
| Hints.Unmark | minesweeper/src/minesweeper/solver.py:19-24 | The loop over the neighbours leaves the grid that `Unmarked` describes. |
| Hints.UnmarkedIdempotent | minesweeper/src/minesweeper/solver.py:19-24 | Unmarking twice gives the same grid as unmarking once. |
| Hints.FlagPass | minesweeper/src/minesweeper/solver.py:34-38 | The pass flags the neighbours at the possibility's indices. The returned count is the number of flags among the neighbours afterwards. |
| Hints.Try | minesweeper/src/minesweeper/solver.py:33-42 | One possibility yields the grid that `Attempt` specifies. That grid exists only when the flagged neighbours are at most the hint's number. |
| Hints.Mark | minesweeper/src/minesweeper/solver.py:27-43 | The loop over all combinations returns the kept attempts, in combination order. |
| Hints.RefinesHint | minesweeper/src/minesweeper/solver.py:12-24 | A refining grid keeps the hint at (i, j) with the same number. |
| Hints.RefinesSettled | minesweeper/src/minesweeper/solver.py:27-43 | A settled hint stays settled in every refining grid. |
| Hints.MarkedSound | minesweeper/src/minesweeper/solver.py:27-43 | Every grid `mark` returns resolves the hint's neighbours: each is a flag or a blank, old flags stay, and nothing else changes. Exactly the hint's number of them are flags. |
| Hints.MarkedComplete | minesweeper/src/minesweeper/solver.py:27-43 | Conversely, every such resolution with exactly the hint's number of flags is among the grids `mark` returns. |
| Hints.MarkedSettles | minesweeper/src/minesweeper/solver.py:27-43 | Every grid `mark` returns refines its input, settles the hint, and is valid there. |
| Hints.MarkedSize | minesweeper/src/minesweeper/solver.py:28-32 | `mark` returns at most C(neighbours, number) grids, and none when the number exceeds the neighbours. |
| Hints.SettledFixed | minesweeper/src/minesweeper/solver.py:27-43 | At a settled hint the grid is valid, and `mark` returns just the grid itself. |
| Hints.MarkKeepsSolution | minesweeper/src/minesweeper/solver.py:27-43 | Take a grid that refines s and settles the hint. Then s is valid at the hint, and some grid `mark` returns for s is still refined by it. |
| Solving.ReducedMember | minesweeper/src/minesweeper/solver.py:60-61 | A state survives `reduce` exactly when it is valid at the hint. |
| Solving.ExpandedMember | minesweeper/src/minesweeper/solver.py:63-68 | A grid is in the expansion exactly when `mark` returns it for some state. |
| Solving.StepMember | minesweeper/src/minesweeper/solver.py:71-73 | After one hint's turn, the states are exactly the grids `mark` returns for states valid at the hint. |
| Solving.StepSettled | minesweeper/src/minesweeper/solver.py:71-73 | A turn at a hint that every state settles leaves the states unchanged. |
| Solving.StepCandidates | minesweeper/src/minesweeper/solver.py:71-73 | A turn keeps every state a refinement of the initial grid. |
| Solving.StepSettles | minesweeper/src/minesweeper/solver.py:71-73 | After a turn every state settles that hint, and the hints settled before stay settled. |
| Solving.StepCovers | minesweeper/src/minesweeper/solver.py:71-73 | A turn drops no grid that settles the hint and refines a state. |
| Solving.RefinesKnown | minesweeper/src/minesweeper/solver.py:75-86 | A grid without unknown cells is refined only by itself. |
| Solving.SweepNext | minesweeper/src/minesweeper/solver.py:70-73 | The sweep over the first k + 1 hints is the sweep over the first k, followed by the turn at the next hint. |
| Solving.SweepCandidates | minesweeper/src/minesweeper/solver.py:70-73 | A sweep keeps every state a refinement of the initial grid. |
| Solving.SweepSettles | minesweeper/src/minesweeper/solver.py:70-73 | After the first k hints, every state settles each of them. |
| Solving.SweepCovers | minesweeper/src/minesweeper/solver.py:70-73 | No solution of the initial grid is pruned by a sweep. |
| Solving.SweepSettled | minesweeper/src/minesweeper/solver.py:70-73 | A sweep leaves alone states that settle every hint. |
| Solving.SweepIdempotent | minesweeper/src/minesweeper/solver.py:70-73 | A second full sweep changes nothing, so later iterations keep the same states. |
| Solving.ReduceKeeps | minesweeper/src/minesweeper/solver.py:60-61 | `reduce` keeps the states refinements of the initial grid, and drops no solution. |
| Solving.ExpandKeeps | minesweeper/src/minesweeper/solver.py:63-68 | `expand` keeps the states refinements of the initial grid, and drops no solution. |
| Solving.OnlyState | minesweeper/src/minesweeper/solver.py:92-101 | A single state without unknown cells that covers every solution is the only solution there can be. It is a solution when it settles every hint. |
| Solving.Solver.constructor | minesweeper/src/minesweeper/solver.py:48-58 | The solver starts from one state, the grid. The hints are the grid's numbered cells in row-major order, there is no final state, and the invariant holds. |
| Solving.Solver.Reduce | minesweeper/src/minesweeper/solver.py:60-61 | The states become those valid at the hint, in order. The invariant is kept. |
| Solving.Solver.Expand | minesweeper/src/minesweeper/solver.py:63-68 | Each state is replaced, in order, by the grids `mark` returns for it. The invariant is kept. |
| Solving.Solver.Round | minesweeper/src/minesweeper/solver.py:71-73 | One hint's `reduce` then `expand` advances the states by one turn of the sweep. The invariant is kept. |
| Solving.Solver.Iterate | minesweeper/src/minesweeper/solver.py:70-73 | The states become the sweep over all the hints. The invariant is kept. |
| Solving.Solver.Finished | minesweeper/src/minesweeper/solver.py:75-86 | True exactly when one state is left and it has no unknown cell. False when more are left, or the one is incomplete. An error exactly when none is left. |
| Solving.Solver.Run | minesweeper/src/minesweeper/solver.py:88-101 | A timeout leaves no final state, after the whole budget was spent without finishing. Otherwise the final state is the one remaining state, the only possible solution, and a solution when an iteration ran. An empty state list is an error. With no iteration the states are left as they were; otherwise they are those of one sweep of every hint over the states before the call. |

## Left out

- The command line (`cli.py`, `__main__.py`), packaging (`setup.py`), `Grid.show` and the logging calls are not part of this model. They are I/O.
- Solving.Solver.Run: the wall clock is replaced by a budget of iterations (`fuel`). The timeout is reached when that budget is spent before the grid is finished. `run(timeout=None)` is not modelled, because it is a loop that need not end. The result is the number of iterations done; the source returns nothing.
- Object identity and copying are modelled as values. `get_aware`'s neighbours are positions rather than references to cells. An update through an attached view is a new grid returned by `Hints.Unmark` and `Hints.FlagPass`. A `deepcopy` (`detached=True`, and `initial_grid`) is the same value.
- Regular expressions are written out as functions. `re.findall("\[.*?\]")` becomes `GridText.FindTokens`, and `re.match("\[[0-8]\]")` becomes the digit test inside `Cells.ParseCell`.
- GridText.ReparseStable: it requires a token on every non-blank line. A non-blank line without a token parses to an empty row, and an empty row prints as a blank line, which the next parse drops. So for such text `Grid.from_string(grid.to_string())` can differ from the grid, and no promise is made there.
- GridText.SplitLines: it differs from `str.splitlines` in three places, each by extra empty pieces. It splits `\r\n` into two breaks. It ends with an empty piece after a trailing break. It gives `[""]` for the empty text, where `"".splitlines()` is `[]`. Blank lines are dropped right after, so `Grid.from_string` sees the same lines.
- Rectangular grids only. These members require a rectangular grid, directly or through `ValidPos` and `HintAt`:
  - Solving.Solver.constructor;
  - Grids.Block, Grids.Neighbors and Grids.GetAware;
  - Grids.NumPositions, Grids.GetNums and Grids.GetNumsAware;
  - every member of Hints.
  The source's `get_aware` and `get_nums` also accept a ragged grid, as long as every index they reach exists in it. Its `ncols` pops an arbitrary row length. The model does not capture ragged grids.
- Grids.Get: `Grid.get` is plain indexing and has no contract of its own. Grids.GetAware states that the main cell is the grid's cell at (i, j).
- Solving.Solver.Reduce and Solving.Solver.Expand: require (i, j) to be one of the solver's hints. At a non-hint cell the source fails with a TypeError.
- Cells.ParseCell: for a token that starts with a blank, the contract states only that a parsed count is at most 8. The body parses the stripped token again, as the source does.
- Negative counts cannot occur: a count is a `nat`, and the parser only produces 0 to 8.
- Solving.Solver.Run: when the initial grid is already finished, no iteration runs. Its final state is then the initial grid, which is not checked against its hints, so `Solves` is promised only when an iteration ran.
- `Hints.Try`, `Hints.FlagPass` and `Solving.Solver.Round` are the bodies of the loops in `mark` and `iterate`, written as separate methods. They do not exist in the source.
