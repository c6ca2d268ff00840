/**
 The game world (`World` in life.py): a `rows` x `cols` grid of cell identities,
 its single-cell reads and writes, the bulk load `initialize`, and the code
 matrix that `__str__` renders.
 */
module Board {
  import opened Codebook

  datatype World = World(rows: nat, cols: nat, cells: seq<seq<Identity>>)

  /** The errors the operations of life.py raise: the dimension assertion of
      `initialize`, a list index out of range, a code missing from `CELLS`, and
      the `TypeError` of iterating over `None`. The positions say where the
      loop of `initialize` stopped. */
  datatype Error =
    | BadDimensions
    | IndexError(row: int, col: int)
    | KeyError(row: int, col: int, code: int)
    | TypeError

  datatype Result<T> = Ok(value: T) | Err(error: Error)

  /** The grid holds `rows` rows of `cols` cells each. */
  predicate Valid(w: World)
  {
    && |w.cells| == w.rows
    && forall i :: 0 <= i < |w.cells| ==> |w.cells[i]| == w.cols
  }

  predicate InRange(w: World, r: int, c: int)
  {
    0 <= r < w.rows && 0 <= c < w.cols
  }

  /** The identity of the cell at an in-range position. */
  function At(w: World, r: int, c: int): Identity
    requires Valid(w) && InRange(w, r, c)
  {
    w.cells[r][c]
  }

  /** `w'` is `w` with the cell at `(r, c)` set to `id` and every other cell as it was. */
  ghost predicate Rewritten(w: World, w': World, r: int, c: int, id: Identity)
    requires Valid(w) && InRange(w, r, c)
  {
    && Valid(w')
    && w'.rows == w.rows && w'.cols == w.cols
    && At(w', r, c) == id
    && forall i, j :: InRange(w, i, j) && (i, j) != (r, c) ==> At(w', i, j) == At(w, i, j)
  }

  /** The world's constructor: every cell starts out inactive. */
  function NewWorld(rows: nat, cols: nat): (w: World)
    ensures Valid(w) && w.rows == rows && w.cols == cols
    ensures forall r, c :: InRange(w, r, c) ==> At(w, r, c) == Inactive
  {
    World(rows, cols, seq(rows, _ => seq(cols, _ => Inactive)))
  }

  /** Python list indexing into a list of length `len`: a negative index counts
      from the end, anything else out of range is an `IndexError` (`None`). */
  function PyIndex(len: nat, i: int): (k: Option<nat>)
    ensures k.Some? <==> -(len as int) <= i < len
    ensures k.Some? ==> k.value == i % len
  {
    if 0 <= i < len then Some(i)
    else if -(len as int) <= i < 0 then Some(i + len)
    else None
  }

  /** Sets the cell at an in-range position, leaving the rest of the grid alone. */
  function SetAt(w: World, r: int, c: int, id: Identity): (w': World)
    requires Valid(w) && InRange(w, r, c)
    ensures Rewritten(w, w', r, c, id)
  {
    World(w.rows, w.cols, w.cells[r := w.cells[r][c := id]])
  }

  /** `get_cell(row, col)`: `cells[row][col]` under Python indexing. */
  function GetCell(w: World, row: int, col: int): (r: Result<Identity>)
    requires Valid(w)
    ensures r.Ok? <==> -(w.rows as int) <= row < w.rows && -(w.cols as int) <= col < w.cols
    ensures r.Ok? ==> w.rows > 0 && w.cols > 0 && r.value == At(w, row % w.rows, col % w.cols)
    ensures r.Err? ==> r.error == IndexError(row, col)
  {
    match (PyIndex(w.rows, row), PyIndex(w.cols, col))
    case (Some(i), Some(j)) => Ok(w.cells[i][j])
    case _ => Err(IndexError(row, col))
  }

  /** `change_cell_identity(new, row, col)`: overwrites one cell's identity with
      any identity at all; an out-of-range position raises before anything changes. */
  function ChangeCellIdentity(w: World, id: Identity, row: int, col: int): (r: Result<World>)
    requires Valid(w)
    ensures r.Ok? <==> -(w.rows as int) <= row < w.rows && -(w.cols as int) <= col < w.cols
    ensures r.Ok? ==> w.rows > 0 && w.cols > 0 && Rewritten(w, r.value, row % w.rows, col % w.cols, id)
    ensures r.Err? ==> r.error == IndexError(row, col)
  {
    match (PyIndex(w.rows, row), PyIndex(w.cols, col))
    case (Some(i), Some(j)) => Ok(SetAt(w, i, j, id))
    case _ => Err(IndexError(row, col))
  }

  /** `remove_cell(row, col)`: makes one cell inactive. */
  function RemoveCell(w: World, row: int, col: int): (r: Result<World>)
    requires Valid(w)
    ensures r.Ok? <==> -(w.rows as int) <= row < w.rows && -(w.cols as int) <= col < w.cols
    ensures r.Ok? ==> w.rows > 0 && w.cols > 0 && Rewritten(w, r.value, row % w.rows, col % w.cols, Inactive)
    ensures r.Err? ==> r.error == IndexError(row, col)
  {
    match GetCell(w, row, col)
    case Ok(_) => Ok(SetAt(w, row % w.rows, col % w.cols, Inactive))
    case Err(e) => Err(e)
  }

  /** Position `(i, j)` is visited before `(i0, j0)` by the row-major loop of `initialize`. */
  predicate Before(i: int, j: int, i0: int, j0: int)
  {
    i < i0 || (i == i0 && j < j0)
  }

  /** Entry `(i, j)` of the bulk-load matrix exists and is a key of `CELLS`. */
  predicate Decodable(initial: seq<seq<int>>, i: int, j: int)
  {
    0 <= i < |initial| && 0 <= j < |initial[i]| && CellOf(initial[i][j]).Some?
  }

  /** `w'` is `w` with every cell visited before `(i0, j0)` overwritten from
      `initial` through `CELLS`, and every later cell as it was. */
  ghost predicate LoadedBefore(w: World, w': World, initial: seq<seq<int>>, i0: int, j0: int)
    requires Valid(w)
  {
    && Valid(w')
    && w'.rows == w.rows && w'.cols == w.cols
    && forall i, j :: InRange(w, i, j) ==>
         if Before(i, j, i0, j0) then
           Decodable(initial, i, j) && Some(At(w', i, j)) == CellOf(initial[i][j])
         else
           At(w', i, j) == At(w, i, j)
  }

  /** The bulk-load matrix `initialize` accepts: the dimension assertion holds
      (it reads `initial[0]`, so there must be a row) and every entry the loop
      visits exists and has a code. */
  ghost predicate Loadable(w: World, initial: seq<seq<int>>)
  {
    && |initial| == w.rows && w.rows > 0 && |initial[0]| == w.cols
    && forall i, j :: InRange(w, i, j) ==> Decodable(initial, i, j)
  }

  /** `initialize(initial)`: checks the dimensions, then walks the grid in
      row-major order writing `CELLS[initial[i][j]]` into each cell. A failure
      inside the loop leaves the cells already written in place. */
  method Initialize(w: World, initial: seq<seq<int>>) returns (w': World, failure: Option<Error>)
    requires Valid(w)
    ensures failure.None? <==> Loadable(w, initial)
    ensures failure.Some? ==> !failure.value.TypeError?
    ensures failure.None? ==> LoadedBefore(w, w', initial, w.rows, 0)
    ensures failure == Some(BadDimensions) <==> |initial| != w.rows || (w.rows > 0 && |initial[0]| != w.cols)
    ensures failure == Some(BadDimensions) ==> w' == w
    ensures failure.Some? && failure.value.IndexError? ==>
              var e := failure.value;
              if w.rows == 0 then w' == w && e == IndexError(0, 0)
              else InRange(w, e.row, e.col) && e.col >= |initial[e.row]|
                   && LoadedBefore(w, w', initial, e.row, e.col)
    ensures failure.Some? && failure.value.KeyError? ==>
              var e := failure.value;
              && InRange(w, e.row, e.col) && e.col < |initial[e.row]|
              && initial[e.row][e.col] == e.code && CellOf(e.code).None?
              && LoadedBefore(w, w', initial, e.row, e.col)
  {
    if |initial| != w.rows {
      return w, Some(BadDimensions);
    }
    if w.rows == 0 {
      // `initial[0]` of an empty list
      return w, Some(IndexError(0, 0));
    }
    if |initial[0]| != w.cols {
      return w, Some(BadDimensions);
    }
    w' := w;
    var i := 0;
    while i < w.rows
      invariant 0 <= i <= w.rows
      invariant LoadedBefore(w, w', initial, i, 0)
    {
      var j := 0;
      while j < w.cols
        invariant 0 <= j <= w.cols
        invariant LoadedBefore(w, w', initial, i, j)
      {
        if j >= |initial[i]| {
          assert !Decodable(initial, i, j);
          return w', Some(IndexError(i, j));
        }
        var code := initial[i][j];
        var id := CellOf(code);
        if id.None? {
          assert !Decodable(initial, i, j);
          return w', Some(KeyError(i, j, code));
        }
        w' := SetAt(w', i, j, id.value);
        j := j + 1;
      }
      i := i + 1;
    }
    return w', None;
  }

  /** Every cell has a code in `CELLS_INDEX`. */
  predicate Encodable(w: World)
    requires Valid(w)
  {
    forall i, j :: 0 <= i < w.rows && 0 <= j < w.cols ==> At(w, i, j) != Diseased
  }

  /** The code matrix `__str__` prints: `CELLS_INDEX` of every cell, row by row;
      a cell whose identity has no code is a `KeyError` (`None`). */
  function Snapshot(w: World): (s: Option<seq<seq<int>>>)
    requires Valid(w)
    ensures s.Some? <==> Encodable(w)
    ensures s.Some? ==> |s.value| == w.rows
    ensures s.Some? ==> forall i :: 0 <= i < w.rows ==> |s.value[i]| == w.cols
    ensures s.Some? ==> forall i, j :: InRange(w, i, j) ==> CellOf(s.value[i][j]) == Some(At(w, i, j))
  {
    if Encodable(w) then
      Some(seq(w.rows, i requires 0 <= i < w.rows && Encodable(w) =>
             seq(w.cols, j requires 0 <= j < w.cols => IndexOf(At(w, i, j)).value)))
    else
      None
  }

  /** Every row of a loadable matrix reaches column `cols`: the loop reads its
      last visited entry. */
  lemma LoadableRowsLongEnough(w: World, initial: seq<seq<int>>)
    requires Loadable(w, initial)
    ensures forall i :: 0 <= i < |initial| ==> |initial[i]| >= w.cols
  {
    forall i | 0 <= i < |initial|
      ensures |initial[i]| >= w.cols
    {
      if w.cols > 0 {
        assert InRange(w, i, w.cols - 1);
      }
    }
  }

  /** The entries of a loadable matrix that `initialize` reads: every row cut to
      `cols` entries. */
  ghost function VisitedPart(w: World, initial: seq<seq<int>>): seq<seq<int>>
    requires Loadable(w, initial)
  {
    LoadableRowsLongEnough(w, initial);
    seq(w.rows, i requires 0 <= i < w.rows && |initial[i]| >= w.cols => initial[i][..w.cols])
  }

  /** Round trip: after a successful `initialize`, the code matrix read back
      through `CELLS_INDEX` is the loaded matrix, each row cut to `cols`
      entries (the loop never reads past column `cols`). */
  lemma InitializeRoundTrip(w: World, w': World, initial: seq<seq<int>>)
    requires Valid(w) && Loadable(w, initial)
    requires LoadedBefore(w, w', initial, w.rows, 0)
    ensures Snapshot(w') == Some(VisitedPart(w, initial))
  {
    assert Encodable(w');
    var s := Snapshot(w').value;
    var cut := VisitedPart(w, initial);
    LoadableRowsLongEnough(w, initial);
    forall i | 0 <= i < w.rows
      ensures s[i] == cut[i]
    {
      forall j | 0 <= j < w.cols
        ensures s[i][j] == cut[i][j]
      {
        assert Decodable(initial, i, j);
        assert CellOf(s[i][j]) == CellOf(initial[i][j]);
        CellOfInjective(s[i][j], initial[i][j]);
      }
    }
    assert s == cut;
  }

  /** For a matrix of exactly `rows` x `cols` entries the round trip is exact. */
  lemma InitializeRoundTripExact(w: World, w': World, initial: seq<seq<int>>)
    requires Valid(w) && Loadable(w, initial)
    requires forall i :: 0 <= i < |initial| ==> |initial[i]| == w.cols
    requires LoadedBefore(w, w', initial, w.rows, 0)
    ensures Snapshot(w') == Some(initial)
  {
    InitializeRoundTrip(w, w', initial);
    var cut := VisitedPart(w, initial);
    assert forall i :: 0 <= i < w.rows ==> cut[i] == initial[i];
    assert cut == initial;
  }
}
