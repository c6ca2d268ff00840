/**
 Neighbour statistics of a cell (`Cell.get_adjacent`, `Cell.get_diagonals` and
 `Cell.get_neighbors` in life.py): the identities of the four orthogonal and the
 four diagonal neighbours on the torus, tallied into frequency tables.

 The three methods in life.py build their tables but end without a `return`
 statement, so as written the first two return `None` and `get_neighbors`
 raises `TypeError`. `GetAdjacent`, `GetDiagonals` and `GetNeighbors` give the
 result their documentation describes, the table of identities and
 frequencies; the `...AsWritten` methods at the end model the code as written.
 */
module Neighbors {
  import opened Codebook
  import opened Board

  datatype Position = Position(row: int, col: int)

  /** The index before `a` on a cycle of length `n`: the first wraps round to the last. */
  function Prev(a: int, n: int): int
  {
    if a == 0 then n - 1 else a - 1
  }

  /** The index after `a` on a cycle of length `n`: the last wraps round to the first. */
  function Next(a: int, n: int): int
  {
    if a == n - 1 then 0 else a + 1
  }

  /** `b` is one step from `a`, backwards or forwards, around a cycle of length `n`. */
  ghost predicate Step(a: int, b: int, n: int)
  {
    b == Prev(a, n) || b == Next(a, n)
  }

  /** `q` neighbours `p` across an edge of the torus: same row and one column
      over, or same column and one row over. */
  ghost predicate Orthogonal(w: World, p: Position, q: Position)
  {
    || (p.row == q.row && Step(p.col, q.col, w.cols))
    || (p.col == q.col && Step(p.row, q.row, w.rows))
  }

  /** `q` neighbours `p` across a corner of the torus: one row and one column over. */
  ghost predicate Diagonal(w: World, p: Position, q: Position)
  {
    Step(p.row, q.row, w.rows) && Step(p.col, q.col, w.cols)
  }

  /** Python's `% n` with a positive divisor never yields a negative result, so
      the index arithmetic of life.py steps around the cycle. */
  lemma WrapBack(a: int, n: int)
    requires 0 <= a < n
    ensures (a - 1) % n == Prev(a, n)
    ensures (a + 1) % n == Next(a, n)
  {
    if a == 0 {
      assert -1 == (-1) * n + (n - 1);
    }
    if a == n - 1 {
      assert n == 1 * n + 0;
    }
  }

  /** Stepping around a cycle is symmetric. */
  lemma StepSymmetric(a: int, b: int, n: int)
    requires 0 <= a < n && 0 <= b < n
    ensures Step(a, b, n) <==> Step(b, a, n)
  {
  }

  /** The four orthogonal neighbours in the order life.py:77-80 lists them:
      top, bottom, left, right. */
  function AdjacentPositions(w: World, r: int, c: int): (ps: seq<Position>)
    requires InRange(w, r, c)
    ensures |ps| == 4
    ensures forall k :: 0 <= k < |ps| ==> InRange(w, ps[k].row, ps[k].col)
    ensures forall k :: 0 <= k < |ps| ==> Orthogonal(w, Position(r, c), ps[k])
  {
    WrapBack(r, w.rows);
    WrapBack(c, w.cols);
    [ Position((r - 1) % w.rows, c),
      Position((r + 1) % w.rows, c),
      Position(r, (c - 1) % w.cols),
      Position(r, (c + 1) % w.cols) ]
  }

  /** The four diagonal neighbours in the order of the nested loops of
      life.py:93-97: row offset -1 then +1, and within each, column offset -1 then +1. */
  function DiagonalPositions(w: World, r: int, c: int): (ps: seq<Position>)
    requires InRange(w, r, c)
    ensures |ps| == 4
    ensures forall k :: 0 <= k < |ps| ==> InRange(w, ps[k].row, ps[k].col)
    ensures forall k :: 0 <= k < |ps| ==> Diagonal(w, Position(r, c), ps[k])
  {
    WrapBack(r, w.rows);
    WrapBack(c, w.cols);
    [ Position((r - 1) % w.rows, (c - 1) % w.cols),
      Position((r - 1) % w.rows, (c + 1) % w.cols),
      Position((r + 1) % w.rows, (c - 1) % w.cols),
      Position((r + 1) % w.rows, (c + 1) % w.cols) ]
  }

  /** Every orthogonal neighbour on the torus is one of the four listed. */
  lemma AdjacentComplete(w: World, p: Position, q: Position)
    requires InRange(w, p.row, p.col) && InRange(w, q.row, q.col)
    requires Orthogonal(w, p, q)
    ensures q in AdjacentPositions(w, p.row, p.col)
  {
    var ps := AdjacentPositions(w, p.row, p.col);
    if p.row == q.row && Step(p.col, q.col, w.cols) {
      assert q == ps[2] || q == ps[3];
    } else {
      assert q == ps[0] || q == ps[1];
    }
  }

  /** Every diagonal neighbour on the torus is one of the four listed. */
  lemma DiagonalComplete(w: World, p: Position, q: Position)
    requires InRange(w, p.row, p.col) && InRange(w, q.row, q.col)
    requires Diagonal(w, p, q)
    ensures q in DiagonalPositions(w, p.row, p.col)
  {
    var ps := DiagonalPositions(w, p.row, p.col);
    assert q == ps[0] || q == ps[1] || q == ps[2] || q == ps[3];
  }

  /** Adjacency on the torus is symmetric: `q` is listed among `p`'s orthogonal
      neighbours exactly when `p` is listed among `q`'s. */
  lemma AdjacencySymmetric(w: World, p: Position, q: Position)
    requires InRange(w, p.row, p.col) && InRange(w, q.row, q.col)
    ensures q in AdjacentPositions(w, p.row, p.col) <==> p in AdjacentPositions(w, q.row, q.col)
  {
    StepSymmetric(p.row, q.row, w.rows);
    StepSymmetric(p.col, q.col, w.cols);
    if q in AdjacentPositions(w, p.row, p.col) {
      AdjacentComplete(w, q, p);
    }
    if p in AdjacentPositions(w, q.row, q.col) {
      AdjacentComplete(w, p, q);
    }
  }

  /** The same symmetry for the diagonal neighbours. */
  lemma DiagonalSymmetric(w: World, p: Position, q: Position)
    requires InRange(w, p.row, p.col) && InRange(w, q.row, q.col)
    ensures q in DiagonalPositions(w, p.row, p.col) <==> p in DiagonalPositions(w, q.row, q.col)
  {
    StepSymmetric(p.row, q.row, w.rows);
    StepSymmetric(p.col, q.col, w.cols);
    if q in DiagonalPositions(w, p.row, p.col) {
      DiagonalComplete(w, q, p);
    }
    if p in DiagonalPositions(w, q.row, q.col) {
      DiagonalComplete(w, p, q);
    }
  }

  /** The identities of the cells at the given positions, in order. */
  function IdentitiesAt(w: World, ps: seq<Position>): (ids: seq<Identity>)
    requires Valid(w)
    requires forall k :: 0 <= k < |ps| ==> InRange(w, ps[k].row, ps[k].col)
    ensures |ids| == |ps|
    ensures forall k :: 0 <= k < |ps| ==> ids[k] == At(w, ps[k].row, ps[k].col)
  {
    seq(|ps|, k requires 0 <= k < |ps| => At(w, ps[k].row, ps[k].col))
  }

  function AdjacentIdentities(w: World, r: int, c: int): seq<Identity>
    requires Valid(w) && InRange(w, r, c)
  {
    IdentitiesAt(w, AdjacentPositions(w, r, c))
  }

  function DiagonalIdentities(w: World, r: int, c: int): seq<Identity>
    requires Valid(w) && InRange(w, r, c)
  {
    IdentitiesAt(w, DiagonalPositions(w, r, c))
  }

  /** All eight neighbours: the orthogonal ones, then the diagonal ones. */
  function NeighborIdentities(w: World, r: int, c: int): seq<Identity>
    requires Valid(w) && InRange(w, r, c)
  {
    AdjacentIdentities(w, r, c) + DiagonalIdentities(w, r, c)
  }

  /** The frequency table of a list of identities: every identity that occurs,
      mapped to its number of occurrences. */
  ghost function FrequencyTable(s: seq<Identity>): map<Identity, nat>
  {
    map x | x in s :: multiset(s)[x]
  }

  /** A table's count for an identity, an absent key counting as 0 (the
      `"live" not in neighbors` tests of the rules). */
  function Count(table: map<Identity, nat>, x: Identity): nat
  {
    if x in table then table[x] else 0
  }

  /** The sum of a table's counts over every identity. */
  function Total(table: map<Identity, nat>): nat
  {
    Count(table, Inactive) + Count(table, Live) + Count(table, Fire) + Count(table, Water) + Count(table, Diseased)
  }

  /** The number of indices of `s` that hold `x`, counted directly. */
  function Occurrences(s: seq<Identity>, x: Identity): nat
  {
    if |s| == 0 then 0 else (if s[0] == x then 1 else 0) + Occurrences(s[1..], x)
  }

  /** A frequency table counts each identity's occurrences. */
  lemma {:induction false} FrequencyCounts(s: seq<Identity>, x: Identity)
    ensures Count(FrequencyTable(s), x) == Occurrences(s, x)
  {
    if |s| == 0 {
      assert x !in s;
    } else {
      assert s == [s[0]] + s[1..];
      assert multiset(s) == multiset{s[0]} + multiset(s[1..]);
      FrequencyCounts(s[1..], x);
      if x !in s[1..] {
        assert multiset(s[1..])[x] == 0;
      }
    }
  }

  /** Every element of a list is one of the five identities, so their
      occurrences add up to the list's length. */
  lemma {:induction false} OccurrencesSum(s: seq<Identity>)
    ensures Occurrences(s, Inactive) + Occurrences(s, Live) + Occurrences(s, Fire)
            + Occurrences(s, Water) + Occurrences(s, Diseased) == |s|
  {
    if |s| > 0 {
      OccurrencesSum(s[1..]);
    }
  }

  /** The counts of a frequency table sum to the length of its list. */
  lemma FrequencyTotal(s: seq<Identity>)
    ensures Total(FrequencyTable(s)) == |s|
  {
    FrequencyCounts(s, Inactive);
    FrequencyCounts(s, Live);
    FrequencyCounts(s, Fire);
    FrequencyCounts(s, Water);
    FrequencyCounts(s, Diseased);
    OccurrencesSum(s);
  }

  /** A frequency table has no more keys than its list has entries. */
  lemma {:induction false} FrequencyKeys(s: seq<Identity>)
    ensures |FrequencyTable(s)| <= |s|
  {
    if |s| > 0 {
      var rest := s[1..];
      FrequencyKeys(rest);
      assert s == [s[0]] + rest;
      assert FrequencyTable(s).Keys == FrequencyTable(rest).Keys + {s[0]};
    }
  }

  /** The table of a concatenation counts both parts. */
  lemma FrequencyAppend(a: seq<Identity>, b: seq<Identity>, x: Identity)
    ensures Count(FrequencyTable(a + b), x) == Count(FrequencyTable(a), x) + Count(FrequencyTable(b), x)
  {
    assert multiset(a + b) == multiset(a) + multiset(b);
  }

  /** Tallying one more entry: the loop step of life.py:82-86. */
  lemma FrequencySnoc(s: seq<Identity>, x: Identity)
    ensures FrequencyTable(s + [x]) == FrequencyTable(s)[x := Count(FrequencyTable(s), x) + 1]
  {
    assert multiset(s + [x]) == multiset(s) + multiset{x};
  }

  /** Two tables with the same keys and the same counts are equal. */
  lemma TablesEqual(m1: map<Identity, nat>, m2: map<Identity, nat>)
    requires m1.Keys == m2.Keys
    requires forall x :: Count(m1, x) == Count(m2, x)
    ensures m1 == m2
  {
    forall x | x in m1
      ensures m1[x] == m2[x]
    {
      assert Count(m1, x) == Count(m2, x);
    }
  }

  /** The loop of life.py:82-86 (and 99-103): a fresh dictionary, one entry per
      new identity, incremented on every repeat. */
  method Tally(list: seq<Identity>) returns (table: map<Identity, nat>)
    ensures table == FrequencyTable(list)
  {
    table := map[];
    var i := 0;
    while i < |list|
      invariant 0 <= i <= |list|
      invariant table == FrequencyTable(list[..i])
    {
      var id := list[i];
      FrequencySnoc(list[..i], id);
      assert list[..i + 1] == list[..i] + [id];
      if id in table {
        table := table[id := table[id] + 1];
      } else {
        table := table[id := 1];
      }
      i := i + 1;
    }
    assert list[..|list|] == list;
  }

  /** The loop of life.py:107-111: adds every count of `more` into `into`,
      creating the keys `into` lacks. */
  method AddTable(into: map<Identity, nat>, more: map<Identity, nat>) returns (sum: map<Identity, nat>)
    ensures sum.Keys == into.Keys + more.Keys
    ensures forall x :: Count(sum, x) == Count(into, x) + Count(more, x)
  {
    sum := into;
    var pending := more.Keys;
    while pending != {}
      invariant pending <= more.Keys
      invariant sum.Keys == into.Keys + (more.Keys - pending)
      invariant forall x :: Count(sum, x) == Count(into, x) + (if x in pending then 0 else Count(more, x))
      decreases pending
    {
      var id :| id in pending;
      if id in sum {
        sum := sum[id := sum[id] + more[id]];
      } else {
        sum := sum[id := more[id]];
      }
      pending := pending - {id};
    }
  }

  /** `get_adjacent`: the frequency table of the four orthogonal neighbours.
      Its counts sum to 4, so it has at most 4 keys. */
  method GetAdjacent(w: World, r: int, c: int) returns (adjacent: map<Identity, nat>)
    requires Valid(w) && InRange(w, r, c)
    ensures adjacent == FrequencyTable(AdjacentIdentities(w, r, c))
    ensures forall x :: Count(adjacent, x) == Occurrences(AdjacentIdentities(w, r, c), x)
    ensures Total(adjacent) == 4
    ensures |adjacent| <= 4
  {
    var list := AdjacentIdentities(w, r, c);
    adjacent := Tally(list);
    forall x {
      FrequencyCounts(list, x);
    }
    FrequencyTotal(list);
    FrequencyKeys(list);
  }

  /** `get_diagonals`: the frequency table of the four diagonal neighbours.
      Its counts sum to 4, so it has at most 4 keys. */
  method GetDiagonals(w: World, r: int, c: int) returns (diagonals: map<Identity, nat>)
    requires Valid(w) && InRange(w, r, c)
    ensures diagonals == FrequencyTable(DiagonalIdentities(w, r, c))
    ensures forall x :: Count(diagonals, x) == Occurrences(DiagonalIdentities(w, r, c), x)
    ensures Total(diagonals) == 4
    ensures |diagonals| <= 4
  {
    var list := DiagonalIdentities(w, r, c);
    diagonals := Tally(list);
    forall x {
      FrequencyCounts(list, x);
    }
    FrequencyTotal(list);
    FrequencyKeys(list);
  }

  /** `get_neighbors`: the elementwise sum of the adjacent and the diagonal
      tables, which is the frequency table of all eight neighbours; its counts
      sum to 8. */
  method GetNeighbors(w: World, r: int, c: int) returns (neighbors: map<Identity, nat>)
    requires Valid(w) && InRange(w, r, c)
    ensures forall x :: Count(neighbors, x) ==
              Count(FrequencyTable(AdjacentIdentities(w, r, c)), x) + Count(FrequencyTable(DiagonalIdentities(w, r, c)), x)
    ensures neighbors == FrequencyTable(NeighborIdentities(w, r, c))
    ensures forall x :: Count(neighbors, x) == Occurrences(NeighborIdentities(w, r, c), x)
    ensures Total(neighbors) == 8
    ensures |neighbors| <= 8
  {
    var adjacent := GetAdjacent(w, r, c);
    var more := GetDiagonals(w, r, c);
    neighbors := AddTable(adjacent, more);
    var a, d := AdjacentIdentities(w, r, c), DiagonalIdentities(w, r, c);
    forall x
      ensures Count(neighbors, x) == Count(FrequencyTable(a + d), x)
    {
      FrequencyAppend(a, d, x);
    }
    assert FrequencyTable(a + d).Keys == adjacent.Keys + more.Keys;
    TablesEqual(neighbors, FrequencyTable(a + d));
    forall x {
      FrequencyCounts(a + d, x);
    }
    FrequencyTotal(a + d);
    FrequencyKeys(a + d);
  }

  /** `get_adjacent` exactly as life.py:72-86 writes it: the table is built and
      then dropped, because the method has no `return`, so the call yields `None`
      instead of the documented table. `GetAdjacent` is the documented behaviour. */
  method GetAdjacentAsWritten(w: World, r: int, c: int) returns (result: Option<map<Identity, nat>>)
    requires Valid(w) && InRange(w, r, c)
    ensures result.None?
  {
    var adjacent := Tally(AdjacentIdentities(w, r, c));
    result := None;
  }

  /** `get_diagonals` exactly as life.py:88-103 writes it: no `return`, so `None`.
      `GetDiagonals` is the documented behaviour. */
  method GetDiagonalsAsWritten(w: World, r: int, c: int) returns (result: Option<map<Identity, nat>>)
    requires Valid(w) && InRange(w, r, c)
    ensures result.None?
  {
    var diagonals := Tally(DiagonalIdentities(w, r, c));
    result := None;
  }

  /** `get_neighbors` exactly as life.py:105-111 writes it: both tables it is
      handed are `None`, so `for identity in more` raises a `TypeError` and no
      table is produced. `GetNeighbors` is the documented behaviour. */
  method GetNeighborsAsWritten(w: World, r: int, c: int) returns (result: Result<map<Identity, nat>>)
    requires Valid(w) && InRange(w, r, c)
    ensures result == Err(TypeError)
  {
    var neighbors := GetAdjacentAsWritten(w, r, c);
    var more := GetDiagonalsAsWritten(w, r, c);
    // `more` is `None`: iterating over it raises before anything is returned
    result := Err(TypeError);
  }
}
