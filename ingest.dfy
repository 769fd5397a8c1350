/**
 * Ingestion of an uploaded CSV file. The parser's output (`result.data`, one
 * row of cell strings per line) is flattened one level, row after row, into
 * the label sequence (`flat(1)`).
 */
module Ingest {

  /** `rows.flat(1)`: every cell of every row, in row-major order. */
  function Flatten<T>(rows: seq<seq<T>>): (cells: seq<T>)
  {
    if rows == [] then [] else rows[0] + Flatten(rows[1..])
  }

  /** The number of cells in all rows together. */
  function TotalCells<T>(rows: seq<seq<T>>): (count: nat)
  {
    if rows == [] then 0 else |rows[0]| + TotalCells(rows[1..])
  }

  /** Flattening keeps every cell: its length is the sum of the row lengths. */
  lemma {:induction false} FlattenLength<T>(rows: seq<seq<T>>)
    ensures |Flatten(rows)| == TotalCells(rows)
  {
    if rows != [] {
      FlattenLength(rows[1..]);
    }
  }

  /**
   * Row-major order: cell `c` of row `r` sits in the flat sequence right
   * after all cells of the rows before `r`.
   */
  lemma {:induction false} FlattenAt<T>(rows: seq<seq<T>>, r: nat, c: nat)
    requires r < |rows| && c < |rows[r]|
    ensures TotalCells(rows[..r]) + c < |Flatten(rows)|
    ensures Flatten(rows)[TotalCells(rows[..r]) + c] == rows[r][c]
  {
    if r == 0 {
      assert rows[..0] == [];
    } else {
      assert rows[..r][1..] == rows[1..][..r - 1];
      FlattenAt(rows[1..], r - 1, c);
    }
  }
}
