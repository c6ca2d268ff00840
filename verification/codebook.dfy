/**
 The identity codebook of the extended Game of Life: the closed set of cell
 identities and the two lookup tables between the integer codes of the bulk-load
 format and those identities (`CELLS` and `CELLS_INDEX` in life.py).
 */
module Codebook {

  datatype Option<T> = None | Some(value: T)

  /** The identity of a cell. The first four are the codebook's; `Diseased` is not
      in either table, but `Cell.revive` accepts it, so a cell may carry it. */
  datatype Identity = Inactive | Live | Fire | Water | Diseased

  /** `CELLS[code]`: the identity a bulk-load code stands for; a code that is not
      a key of the table is a `KeyError`, modelled as `None`. */
  function CellOf(code: int): (id: Option<Identity>)
    ensures id.Some? <==> 0 <= code <= 3
    ensures id.Some? ==> id.value != Diseased
  {
    match code
    case 0 => Some(Inactive)
    case 1 => Some(Live)
    case 2 => Some(Fire)
    case 3 => Some(Water)
    case _ => None
  }

  /** `CELLS_INDEX[id]`: the code of an identity; `Diseased` has none. The table
      is the inverse of `CellOf`. */
  function IndexOf(id: Identity): (code: Option<int>)
    ensures code.Some? <==> id != Diseased
    ensures code.Some? ==> CellOf(code.value) == Some(id)
  {
    match id
    case Inactive => Some(0)
    case Live => Some(1)
    case Fire => Some(2)
    case Water => Some(3)
    case Diseased => None
  }

  /** Reading a code through `CELLS` and back through `CELLS_INDEX` returns it:
      the two tables are mutual inverses on the codes 0..3. */
  lemma CodebookInverse(code: int)
    requires 0 <= code <= 3
    ensures CellOf(code).Some?
    ensures IndexOf(CellOf(code).value) == Some(code)
  {
  }

  /** Two distinct codes never name the same identity. */
  lemma CellOfInjective(a: int, b: int)
    requires CellOf(a).Some? && CellOf(b).Some?
    requires CellOf(a) == CellOf(b)
    ensures a == b
  {
    CodebookInverse(a);
    CodebookInverse(b);
  }
}
