/**
 * The backing table: a spreadsheet tab or a CSV file, both seen as a list of rows whose
 * first row is the header. Every mutating call is one write to the backend; `writes`
 * counts them so that the operations above can promise how often they write.
 */
module SheetStore {

  /**
   * gspread's update_cell on one row: the cell at column c becomes v, and a row too short to
   * have that column is first filled with empty cells.
   */
  function SetCell(row: seq<string>, c: nat, v: string): (r: seq<string>)
    ensures |r| == if c < |row| then |row| else c + 1
    ensures r[c] == v
    ensures forall j :: 0 <= j < |r| && j != c ==> r[j] == if j < |row| then row[j] else ""
  {
    if c < |row| then row[c := v] else row + seq(c - |row|, _ => "") + [v]
  }

  class Worksheet {
    var table: seq<seq<string>>
    var writes: nat

    constructor (initial: seq<seq<string>>)
      ensures table == initial && writes == 0
    {
      table := initial;
      writes := 0;
    }

    /** Clear the tab (or truncate the file) and write `values` from the first cell. */
    method Overwrite(values: seq<seq<string>>)
      modifies this
      ensures table == values && writes == old(writes) + 1
    {
      table := values;
      writes := writes + 1;
    }

    /** Range update of the whole row at position r (0 is the header). */
    method UpdateRow(r: nat, row: seq<string>)
      requires r < |table|
      modifies this
      ensures table == old(table)[r := row] && writes == old(writes) + 1
    {
      table := table[r := row];
      writes := writes + 1;
    }

    /** Single-cell update at row r, column c (both 0-based, row 0 is the header). */
    method UpdateCell(r: nat, c: nat, v: string)
      requires r < |table|
      modifies this
      ensures table == old(table)[r := SetCell(old(table)[r], c, v)] && writes == old(writes) + 1
    {
      table := table[r := SetCell(table[r], c, v)];
      writes := writes + 1;
    }

    method AppendRow(row: seq<string>)
      modifies this
      ensures table == old(table) + [row] && writes == old(writes) + 1
    {
      table := table + [row];
      writes := writes + 1;
    }

    method DeleteRow(r: nat)
      requires r < |table|
      modifies this
      ensures table == old(table)[..r] + old(table)[r + 1..] && writes == old(writes) + 1
    {
      table := table[..r] + table[r + 1..];
      writes := writes + 1;
    }
  }
}
