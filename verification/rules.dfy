/**
 The cell-level writes and the standard transition rules of life.py
 (`Cell.revive`, `Cell.remove`, `apply_solitude`, `apply_overpopulation`,
 `apply_reproduction`). Each rule asserts the identity it applies to, reads only
 the neighbour table it is handed, and writes its result through `remove` or
 `revive`; here it returns the world after that write.
 */
module Rules {
  import opened Codebook
  import opened Board
  import opened Neighbors

  /** `Cell.remove`: the cell asks its world to `remove_cell` its own position,
      which is always in range. */
  function Remove(w: World, r: int, c: int): (w': World)
    requires Valid(w) && InRange(w, r, c)
    ensures Rewritten(w, w', r, c, Inactive)
    ensures RemoveCell(w, r, c) == Ok(w')
  {
    SetAt(w, r, c, Inactive)
  }

  /** `Cell.revive`: asserts the cell is inactive or diseased, then makes it live. */
  function Revive(w: World, r: int, c: int): (w': World)
    requires Valid(w) && InRange(w, r, c)
    requires At(w, r, c) == Inactive || At(w, r, c) == Diseased
    ensures Rewritten(w, w', r, c, Live)
    ensures w' != w
  {
    SetAt(w, r, c, Live)
  }

  /** `apply_solitude`: a live cell with fewer than two live neighbours (an
      absent key counting as none) is removed; otherwise nothing changes. */
  function ApplySolitude(w: World, r: int, c: int, neighbors: map<Identity, nat>): (w': World)
    requires Valid(w) && InRange(w, r, c) && At(w, r, c) == Live
    ensures Count(neighbors, Live) < 2 ==> Rewritten(w, w', r, c, Inactive)
    ensures Count(neighbors, Live) >= 2 ==> w' == w
  {
    if Live !in neighbors then Remove(w, r, c)
    else if neighbors[Live] < 2 then Remove(w, r, c)
    else w
  }

  /** `apply_overpopulation`: a live cell with more than three live neighbours
      is removed; otherwise nothing changes. */
  function ApplyOverpopulation(w: World, r: int, c: int, neighbors: map<Identity, nat>): (w': World)
    requires Valid(w) && InRange(w, r, c) && At(w, r, c) == Live
    ensures Count(neighbors, Live) > 3 ==> Rewritten(w, w', r, c, Inactive)
    ensures Count(neighbors, Live) <= 3 ==> w' == w
  {
    if Live in neighbors && neighbors[Live] > 3 then Remove(w, r, c) else w
  }

  /** `apply_reproduction`: an inactive cell with exactly three live neighbours
      is revived; otherwise nothing changes. */
  function ApplyReproduction(w: World, r: int, c: int, neighbors: map<Identity, nat>): (w': World)
    requires Valid(w) && InRange(w, r, c) && At(w, r, c) == Inactive
    ensures Count(neighbors, Live) == 3 ==> Rewritten(w, w', r, c, Live)
    ensures Count(neighbors, Live) != 3 ==> w' == w
  {
    if Live in neighbors && neighbors[Live] == 3 then Revive(w, r, c) else w
  }

  /** The standard rules as the module documentation states them (solitude,
      stasis, overpopulation, reproduction): whether a cell is live in the next
      generation, given whether it is live now and its number of live neighbours. */
  predicate LiveNext(live: bool, liveNeighbours: nat)
  {
    if live then liveNeighbours == 2 || liveNeighbours == 3 else liveNeighbours == 3
  }

  /** Fed the table `get_neighbors` computes, the three rules implement the
      documented standard rules, counting live cells directly among the eight
      neighbours: a live cell survives both of its rules exactly when it has two
      or three live neighbours, and an inactive cell is revived exactly when it
      has three. */
  lemma StandardRules(w: World, r: int, c: int, neighbors: map<Identity, nat>)
    requires Valid(w) && InRange(w, r, c)
    requires neighbors == FrequencyTable(NeighborIdentities(w, r, c))
    ensures At(w, r, c) == Live ==>
              (ApplySolitude(w, r, c, neighbors) == w && ApplyOverpopulation(w, r, c, neighbors) == w
               <==> LiveNext(true, Occurrences(NeighborIdentities(w, r, c), Live)))
    ensures At(w, r, c) == Inactive ==>
              (At(ApplyReproduction(w, r, c, neighbors), r, c) == Live
               <==> LiveNext(false, Occurrences(NeighborIdentities(w, r, c), Live)))
  {
    FrequencyCounts(NeighborIdentities(w, r, c), Live);
  }

  /** An inactive cell whose eight neighbours are all inactive stays inactive:
      no rule here moves a cell out of an all-inactive neighbourhood. */
  lemma QuietNeighbourhood(w: World, r: int, c: int)
    requires Valid(w) && InRange(w, r, c) && At(w, r, c) == Inactive
    requires forall k :: 0 <= k < 8 ==> NeighborIdentities(w, r, c)[k] == Inactive
    ensures ApplyReproduction(w, r, c, FrequencyTable(NeighborIdentities(w, r, c))) == w
  {
    var s := NeighborIdentities(w, r, c);
    assert |s| == 8;
    assert Live !in s;
  }
}
