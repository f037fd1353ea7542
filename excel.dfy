/**
 * The legacy spreadsheet helpers (Funcionalidades/excel.py): read the roster CSV without its
 * header rows, write it back, and pick the applicants of one status.
 *
 * The CSV file is a worksheet whose table holds every record the reader yields, the header
 * included. A record too short for the column a loop looks at stops the loop with IndexError.
 */
module Excel {
  import opened Wrappers
  import opened Config
  import opened SheetStore
  import Seqs

  type Row = seq<string>

  /** The five columns of the legacy roster. */
  const HEADERS: seq<string> := ["Nombre", "Apellido", "Tel\U{e9}fono", "DNI", "Estado"]

  /** `indices["Nombre"]` and `indices["Estado"]`. */
  const NOMBRE_COL: nat := 0
  const ESTADO_COL: nat := 4

  const INDEX_ERROR := "IndexError: list index out of range"

  /** The column numbers are the positions `indices` gives the two names. */
  lemma ColumnsNamed()
    ensures Seqs.LastPos(HEADERS, "Nombre") == NOMBRE_COL as int
    ensures Seqs.LastPos(HEADERS, "Estado") == ESTADO_COL as int
  {
    assert HEADERS[4] == "Estado";
    assert HEADERS[0] == "Nombre" && "Nombre" !in HEADERS[1..];
  }

  /** Every record has a cell in column `col`. */
  predicate Readable(rows: seq<Row>, col: nat) {
    forall k :: 0 <= k < |rows| ==> col < |rows[k]|
  }

  /** The test a loop applies to a record: its cell `col` equals `value` (`keep`) or differs from it. */
  predicate Selected(row: Row, col: nat, value: string, keep: bool)
    requires col < |row|
  {
    (row[col] == value) == keep
  }

  /** The records that pass the test, in their order. */
  function Select(rows: seq<Row>, col: nat, value: string, keep: bool): (r: seq<Row>)
    requires Readable(rows, col)
    ensures |r| <= |rows|
  {
    if rows == [] then []
    else (if Selected(rows[0], col, value, keep) then [rows[0]] else []) + Select(rows[1..], col, value, keep)
  }

  /** A record is selected iff it is one of the input's and passes the test. */
  lemma {:induction false} SelectMembership(rows: seq<Row>, col: nat, value: string, keep: bool, x: Row)
    requires Readable(rows, col)
    ensures x in Select(rows, col, value, keep) <==> x in rows && col < |x| && Selected(x, col, value, keep)
  {
    if rows != [] {
      SelectMembership(rows[1..], col, value, keep, x);
      assert x in rows <==> x == rows[0] || x in rows[1..];
    }
  }

  /** Selection treats each record on its own, so it keeps the original order. */
  lemma {:induction false} SelectConcat(a: seq<Row>, b: seq<Row>, col: nat, value: string, keep: bool)
    requires Readable(a, col) && Readable(b, col)
    ensures Readable(a + b, col)
    ensures Select(a + b, col, value, keep) == Select(a, col, value, keep) + Select(b, col, value, keep)
  {
    forall k | 0 <= k < |a + b| ensures col < |(a + b)[k]| {
      if k < |a| { assert (a + b)[k] == a[k]; } else { assert (a + b)[k] == b[k - |a|]; }
    }
    if a == [] {
      assert a + b == b;
    } else {
      assert (a + b)[1..] == a[1..] + b;
      SelectConcat(a[1..], b, col, value, keep);
      assert (a + b)[0] == a[0];
    }
  }

  /**
   * A whole loop over the file: the records that pass the test, or IndexError exactly when some
   * record has no cell `col`.
   */
  function Scan(rows: seq<Row>, col: nat, value: string, keep: bool): (r: Result<seq<Row>>)
    ensures r.Err? <==> exists k :: 0 <= k < |rows| && |rows[k]| <= col
    ensures r.Ok? ==> forall x :: x in r.value <==> x in rows && Selected(x, col, value, keep)
  {
    if Readable(rows, col) then
      var r := Select(rows, col, value, keep);
      assert forall x :: x in r <==> x in rows && Selected(x, col, value, keep) by {
        forall x ensures x in r <==> x in rows && Selected(x, col, value, keep) {
          SelectMembership(rows, col, value, keep, x);
        }
      }
      Ok(r)
    else Err(INDEX_ERROR)
  }

  /** One step of the loop: the records read so far, then the next one if it passes. */
  lemma SelectSnoc(rows: seq<Row>, i: nat, col: nat, value: string, keep: bool)
    requires i < |rows| && Readable(rows[..i], col) && col < |rows[i]|
    ensures Readable(rows[..i + 1], col)
    ensures Select(rows[..i + 1], col, value, keep)
            == Select(rows[..i], col, value, keep) + (if Selected(rows[i], col, value, keep) then [rows[i]] else [])
  {
    assert rows[..i + 1] == rows[..i] + [rows[i]];
    SelectConcat(rows[..i], [rows[i]], col, value, keep);
  }

  /** The loop shared by `readLista` and the status filters, record by record. */
  method ScanFile(rows: seq<Row>, col: nat, value: string, keep: bool) returns (r: Result<seq<Row>>)
    ensures r == Scan(rows, col, value, keep)
  {
    var out: seq<Row> := [];
    for i := 0 to |rows|
      invariant Readable(rows[..i], col)
      invariant out == Select(rows[..i], col, value, keep)
    {
      if |rows[i]| <= col {
        return Err(INDEX_ERROR);
      }
      SelectSnoc(rows, i, col, value, keep);
      if (rows[i][col] == value) == keep {
        out := out + [rows[i]];
      }
    }
    assert rows[..|rows|] == rows;
    return Ok(out);
  }

  /**
   * `readLista`: every record whose first cell is not exactly "Nombre", in order; a blank record
   * (no cells) fails.
   */
  method ReadLista(archivo: Worksheet) returns (r: Result<seq<Row>>)
    ensures r == Scan(archivo.table, NOMBRE_COL, "Nombre", false)
  {
    r := ScanFile(archivo.table, NOMBRE_COL, "Nombre", false);
  }

  /** `setLista`: the file holds exactly the given records. */
  method SetLista(lista: seq<Row>, archivo: Worksheet)
    modifies archivo
    ensures archivo.table == lista && archivo.writes == old(archivo.writes) + 1
  {
    archivo.Overwrite(lista);
  }

  /** Writing a list and reading it back gives the list without its "Nombre" records. */
  method SetThenRead(lista: seq<Row>, archivo: Worksheet) returns (r: Result<seq<Row>>)
    modifies archivo
    ensures r == Scan(lista, NOMBRE_COL, "Nombre", false)
  {
    SetLista(lista, archivo);
    r := ReadLista(archivo);
  }

  /** `getPendientes`, `getAceptados`, `getRechazados`: the records whose Estado cell is the literal. */
  method GetByEstado(archivo: Worksheet, estado: string) returns (r: Result<seq<Row>>)
    ensures r == Scan(archivo.table, ESTADO_COL, estado, true)
  {
    r := ScanFile(archivo.table, ESTADO_COL, estado, true);
  }

  method GetPendientes(archivo: Worksheet) returns (r: Result<seq<Row>>)
    ensures r == Scan(archivo.table, ESTADO_COL, PENDIENTE, true)
  {
    r := GetByEstado(archivo, PENDIENTE);
  }

  method GetAceptados(archivo: Worksheet) returns (r: Result<seq<Row>>)
    ensures r == Scan(archivo.table, ESTADO_COL, ACEPTADO, true)
  {
    r := GetByEstado(archivo, ACEPTADO);
  }

  method GetRechazados(archivo: Worksheet) returns (r: Result<seq<Row>>)
    ensures r == Scan(archivo.table, ESTADO_COL, RECHAZADO, true)
  {
    r := GetByEstado(archivo, RECHAZADO);
  }

  /**
   * The three status lists of a well-formed file are disjoint: a record is in the list of its
   * own Estado and in no other one.
   */
  lemma {:induction false} StatusListsPartition(rows: seq<Row>, x: Row)
    requires Readable(rows, ESTADO_COL) && x in rows
    ensures var p := Scan(rows, ESTADO_COL, PENDIENTE, true).value;
      var a := Scan(rows, ESTADO_COL, ACEPTADO, true).value;
      var j := Scan(rows, ESTADO_COL, RECHAZADO, true).value;
      && (x in p <==> x[ESTADO_COL] == PENDIENTE)
      && (x in a <==> x[ESTADO_COL] == ACEPTADO)
      && (x in j <==> x[ESTADO_COL] == RECHAZADO)
      && !(x in p && x in a) && !(x in p && x in j) && !(x in a && x in j)
  {
    assert PENDIENTE != ACEPTADO && PENDIENTE != RECHAZADO && ACEPTADO != RECHAZADO by {
      assert PENDIENTE[0] == 'P' && ACEPTADO[0] == 'A' && RECHAZADO[0] == 'R';
    }
  }
}
