# Extended Game of Life: a Dafny model of the world, its neighbour tables and its rules

This project models the core of `life.py`, an extended Conway's Game of Life.
The world is a `rows` x `cols` toroidal grid of cells. Each cell carries an identity:
`inactive`, `live`, `fire` or `water`, plus `diseased`, which `Cell.revive` accepts.
The project is written in Dafny and proves properties of five parts of that core.

- `Codebook` (codebook.dfy) holds the identities and the two tables between bulk-load codes and identities (`CELLS`, `CELLS_INDEX`).
- `Board` (board.dfy) holds the `World` grid:
  - its constructor;
  - `get_cell`, `change_cell_identity` and `remove_cell`, with Python's list indexing;
  - the bulk load `initialize`;
  - the code matrix that `__str__` prints.
- `Neighbors` (neighbors.dfy) holds the wrap-around neighbour positions and the frequency tables of `get_adjacent`, `get_diagonals` and `get_neighbors`.
- `Rules` (rules.dfy) holds `Cell.revive`, `Cell.remove` and the three standard rules `apply_solitude`, `apply_overpopulation` and `apply_reproduction`.
- `Render` (render.dfy) holds the text of `World.__str__`, with a reader that recovers the code matrix from it.

Design choices:
- The model is functional. A write returns the new world.
- A cell's back-reference to its world and its stored position become explicit `(w, r, c)` arguments.
- A Python exception is a value:
  - `Result.Err` carries the error (`IndexError`, `KeyError`, `TypeError`, or the dimension assertion);
  - `Option.None` stands for the `KeyError` of a failed lookup in `CELLS` or `CELLS_INDEX`, and for the `None` that a method without a `return` yields;
  - `initialize` returns `(world, failure)`. `world` is the state the grid is left in.
- Each rule's `assert` on the cell's identity becomes a `requires` clause.

## Where the code and its documentation part ways

- `get_adjacent`, `get_diagonals` and `get_neighbors` (life.py:72-111) build their dictionaries but have no `return` statement. As written, the first two return `None`, and `get_neighbors` raises `TypeError` when it iterates over that `None`.
  - Here the model follows the documentation. `GetAdjacent`, `GetDiagonals` and `GetNeighbors` return the tables the doc-comments describe, and the rules use those tables.
  - The code as written is modelled alongside, by `GetAdjacentAsWritten`, `GetDiagonalsAsWritten` and `GetNeighborsAsWritten` (see "## Findings").

## Behaviour of the code the model keeps

- `initialize` (life.py:182-188) leaves a partly loaded grid behind when it fails.
  - It asserts `len(initial) == rows` and `len(initial[0]) == cols`.
  - It then writes cells in row-major order. A later row that is too short raises `IndexError`, and a code missing from `CELLS` raises `KeyError`. Either way, the cells written before the failure stay written.
  - A later row that is too long is accepted, and its extra entries are ignored.
  - With `rows == 0` and an empty `initial`, reading `initial[0]` raises `IndexError`. With `rows == 0` and a non-empty `initial`, the `and` stops at the length test, so the assertion fails first.
  - `Board.Initialize` states all of this exactly.
- `get_cell`, `change_cell_identity` and `remove_cell` index Python lists directly. A negative index therefore counts from the end, as the model's `PyIndex` does.

## Model

| member | source | states |
|---|---|---|
| Codebook.CellOf | life.py:198-203 | `CELLS` is defined exactly on the codes 0..3; no code maps to `diseased` |
| Codebook.IndexOf | life.py:205-210 | `CELLS_INDEX` has a code for every identity but `diseased`, and `CELLS` maps that code back to the identity |
| Codebook.CodebookInverse | life.py:198-210 | every code 0..3 survives `CELLS` followed by `CELLS_INDEX` |
| Codebook.CellOfInjective | life.py:198-203 | two codes that `CELLS` maps to the same identity are the same code |
| Board.NewWorld | life.py:151-156 | a new world has `rows` rows of `cols` cells, all inactive |
| Board.PyIndex | life.py:165-167 | a Python list index is accepted exactly in `[-len, len)` and selects the element at `i mod len` |
| Board.GetCell | life.py:165-167 | `get_cell` succeeds exactly for indices in `[-rows, rows) x [-cols, cols)` and returns the cell at the indices taken modulo the dimensions; any other index raises `IndexError` for that position |
| Board.ChangeCellIdentity | life.py:169-171 | on success exactly one cell now holds the new identity and every other cell is unchanged; out-of-range indices raise `IndexError` without a change |
| Board.RemoveCell | life.py:177-180 | on success exactly one cell is now inactive and every other cell is unchanged; out-of-range indices raise `IndexError` without a change |
| Board.Initialize | life.py:182-188 | succeeds exactly when the dimensions match and every visited entry exists and is a code; then every cell holds `CELLS` of its entry. On failure the error identifies the first bad entry, cells visited before it are loaded and the rest are untouched; a dimension failure changes nothing; no other error (such as `TypeError`) is raised |
| Board.Snapshot | life.py:161-162 | the code matrix exists exactly when no cell is diseased; it has the grid's dimensions and each code decodes back to its cell's identity |
| Board.InitializeRoundTrip | life.py:182-188 | after a successful load, the code matrix equals the loaded matrix with each row cut to `cols` entries |
| Board.LoadableRowsLongEnough | life.py:184-188 | every row of a matrix that loads successfully has at least `cols` entries, because the loop reads each row up to column `cols - 1` |
| Board.InitializeRoundTripExact | life.py:182-188 | for an exactly `rows` x `cols` matrix, loading and then reading back returns the matrix itself |
| Neighbors.WrapBack | life.py:77-80 | Python's `% n` wraps index -1 to `n-1` and index `n` to 0 |
| Neighbors.AdjacentPositions | life.py:76-80 | the four orthogonal positions are in range and each lies one step along one axis of the torus |
| Neighbors.DiagonalPositions | life.py:93-97 | the four diagonal positions are in range and each lies one step along both axes of the torus |
| Neighbors.AdjacentComplete | life.py:76-80 | every in-range position one step along one axis is among the four orthogonal positions |
| Neighbors.DiagonalComplete | life.py:93-97 | every in-range position one step along both axes is among the four diagonal positions |
| Neighbors.AdjacencySymmetric | life.py:76-80 | `q` is an orthogonal neighbour of `p` exactly when `p` is one of `q` |
| Neighbors.DiagonalSymmetric | life.py:93-97 | `q` is a diagonal neighbour of `p` exactly when `p` is one of `q` |
| Neighbors.FrequencyCounts | life.py:82-86 | a frequency table's count for an identity, absent keys counting 0, is the number of positions in the list that hold it |
| Neighbors.FrequencyTotal | life.py:82-86 | the counts of a frequency table sum to the length of its list |
| Neighbors.FrequencyKeys | life.py:82-86 | a frequency table has no more keys than its list has entries |
| Neighbors.FrequencySnoc | life.py:82-86 | one loop step (increment a present key, add an absent one with 1) turns the table of a prefix into the table of the longer prefix |
| Neighbors.Tally | life.py:82-86 | the counting loop produces the frequency table of its list |
| Neighbors.AddTable | life.py:107-111 | the merge loop yields the union of the keys with each count the sum of the two counts |
| Neighbors.GetAdjacent | life.py:72-86 | the adjacent table tallies the four orthogonal neighbours; its counts sum to 4 and it has at most 4 keys |
| Neighbors.GetDiagonals | life.py:88-103 | the diagonal table tallies the four diagonal neighbours; its counts sum to 4 and it has at most 4 keys |
| Neighbors.GetNeighbors | life.py:105-111 | each count in the combined table is the adjacent count plus the diagonal count; the table is the tally of all eight neighbours, its counts sum to 8 and it has at most 8 keys |
| Neighbors.GetAdjacentAsWritten | life.py:72-86 | as written, `get_adjacent` returns `None`, never the documented table |
| Neighbors.GetDiagonalsAsWritten | life.py:88-103 | as written, `get_diagonals` returns `None`, never the documented table |
| Neighbors.GetNeighborsAsWritten | life.py:105-111 | as written, `get_neighbors` raises `TypeError`, because it iterates over the `None` returned by `get_diagonals`; it never produces the documented table |
| Rules.Remove | life.py:118-120 | `Cell.remove` makes its own cell inactive through `remove_cell`, which cannot fail, and changes no other cell |
| Rules.Revive | life.py:113-116 | `Cell.revive`, on an inactive or diseased cell, makes it live and changes no other cell |
| Rules.ApplySolitude | life.py:126-133 | a live cell with fewer than two live neighbours (an absent key counting as none) becomes inactive; otherwise the world is unchanged |
| Rules.ApplyOverpopulation | life.py:135-140 | a live cell with more than three live neighbours becomes inactive; otherwise the world is unchanged |
| Rules.ApplyReproduction | life.py:142-147 | an inactive cell with exactly three live neighbours becomes live; otherwise the world is unchanged |
| Rules.StandardRules | life.py:22-28 | with the table `get_neighbors` computes, a live cell passes both of its rules exactly when it has two or three live neighbours, and an inactive cell revives exactly when it has three |
| Rules.QuietNeighbourhood | life.py:142-147 | an inactive cell whose eight neighbours are all inactive stays inactive under reproduction |
| Render.RowText | life.py:162 | a printed row of `n > 0` codes has `2n-1` characters: the digit of each code at the even positions and a single space between neighbouring digits, with no newline |
| Render.ParseRowText | life.py:162 | reading a printed row back gives its codes |
| Render.SplitJoin | life.py:163 | splitting the newline-joined rows at newlines gives the rows back |
| Render.Show | life.py:161-163 | `__str__` produces a text exactly when every cell has a code; a world with no rows prints as the empty text |
| Render.ShowRoundTrip | life.py:161-163 | the printed text of a world with at least one row reads back as its code matrix |

## Findings

| source | as written | input that shows it | evidently intended | confidence | as-written member | corrected member |
|---|---|---|---|---|---|---|
| life.py:72-86 | `get_adjacent` builds `adjacent` but has no `return`, so it returns `None` | any cell of any world, e.g. `(0, 0)` of a 3 x 3 world | return the frequency table its docstring describes | high (not executed) | Neighbors.GetAdjacentAsWritten | Neighbors.GetAdjacent |
| life.py:88-103 | `get_diagonals` builds `diagonals` but has no `return`, so it returns `None` | any cell of any world, e.g. `(0, 0)` of a 3 x 3 world | return the frequency table its docstring describes | high (not executed) | Neighbors.GetDiagonalsAsWritten | Neighbors.GetDiagonals |
| life.py:105-111 | `get_neighbors` receives `None` twice, raises `TypeError` at `for identity in more`, and has no `return` anyway | any cell of any world, e.g. `(0, 0)` of a 3 x 3 world | return the elementwise sum of the two tables | high (not executed) | Neighbors.GetNeighborsAsWritten | Neighbors.GetNeighbors |

The rules use the corrected tables (`Rules.StandardRules`).

## Left out

- `World.tick` (life.py:194-196) has the body `pass`, so the model has no generation step. Nothing is modelled for rule ordering, short-circuit evaluation or static-cell pruning, because that code does not exist.
- The `RULES` table (life.py:213-217) maps names to methods but dispatches nothing, so the three rules are modelled directly.
- The fire, water, virus, hospital, technology and money rules (life.py:7-17, 31-41) exist only as prose, with no code.
- The tick counters `Cell.ticks`, `World.ticks` and `updated` (life.py:52, 64-67, 156) are never advanced.
- `replace_cell` (life.py:173-175) only replaces one object of the cell graph with another. The model has no cell objects.
- `__repr__`, `Cell.__str__`, the world's `name`, `sample_initial` and `play` (life.py:219-234) do no modelled work.
- Identities are a closed datatype of five values. Other strings that `change_cell_identity` would accept are not modelled.
- Board.NewWorld: takes `rows` and `cols` as natural numbers. A negative dimension, which Python would accept and turn into an empty grid, is not modelled.
- Board.Initialize: takes bulk-load entries as integers. A Python value that merely hashes like a code (such as `True` for 1) is not modelled.
- Rules.ApplySolitude, Rules.ApplyOverpopulation, Rules.ApplyReproduction and Rules.Revive: their identity checks are Python `assert` statements. They are modelled as preconditions, so running Python with assertions disabled is not modelled.
