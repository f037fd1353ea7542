/**
 * The row layer of the roster (bot/services/lista.py): padding, the store views written and
 * read by every handler, exact-status filtering, the business-key lookup, the upsert and the
 * status/note update. The store is a `Worksheet` whose table still holds the header row; the
 * body the handlers see is `ReadListaAny(ws.table)`.
 */
module Lista {
  import opened Wrappers
  import opened Text
  import opened Config
  import opened Seqs
  import opened SheetStore

  type Row = seq<string>

  /** Where the roster lives: a spreadsheet tab or a local CSV file. */
  datatype Backend = Sheets | Csv

  /** What an upsert did. */
  datatype Outcome = New | Updated

  /** `_pad_row`: exactly n cells, a prefix of row followed by empty cells. */
  function PadRow(row: Row, n: nat): (r: Row)
    ensures |r| == n
    ensures forall i :: 0 <= i < n ==> r[i] == if i < |row| then row[i] else ""
    ensures |row| == n ==> r == row
  {
    if |row| < n then row + seq(n - |row|, _ => "") else row[..n]
  }

  function Pad6(row: Row): (r: Row)
    ensures |r| == NCOLS
  {
    PadRow(row, NCOLS)
  }

  predicate Padded(rows: seq<Row>) {
    forall k :: 0 <= k < |rows| ==> |rows[k]| == NCOLS
  }

  function PadAll(rows: seq<Row>): (r: seq<Row>)
    ensures |r| == |rows| && Padded(r)
    ensures forall k :: 0 <= k < |r| ==> r[k] == Pad6(rows[k])
    ensures Padded(rows) ==> r == rows
  {
    seq(|rows|, k requires 0 <= k < |rows| => Pad6(rows[k]))
  }

  predicate NotPhoneSeparator(c: char) {
    c != ' ' && c != '-'
  }

  /** `_clean_phone`: strip, then drop every blank and every dash. */
  function CleanPhone(s: string): (r: string)
    ensures |r| <= |s|
    ensures forall i :: 0 <= i < |r| ==> r[i] != ' ' && r[i] != '-'
    ensures forall c :: !IsSpace(c) ==> (c in r <==> c in s && c != '-')
  {
    TrimKeepsInner(s);
    Keep(Trim(s), NotPhoneSeparator)
  }

  /** A phone already written as plain digits is stored exactly as typed. */
  lemma CleanPhoneKeepsDigits(s: string)
    requires IsDigits(s)
    ensures CleanPhone(s) == s
  {
    assert Stripped(s);
    KeepAll(s, NotPhoneSeparator);
  }

  /** `read_lista_any` on the raw table: drop the header, pad every body row; nothing for an empty source. */
  function ReadListaAny(table: seq<Row>): (rows: seq<Row>)
    ensures |rows| == if table == [] then 0 else |table| - 1
    ensures Padded(rows)
    ensures forall k :: 0 <= k < |rows| ==> rows[k] == Pad6(table[k + 1])
  {
    if table == [] then [] else PadAll(table[1..])
  }

  /** Reading back what `set_lista_any` wrote gives the padded rows, and exactly the rows when they were padded. */
  lemma ReadAfterSet(rows: seq<Row>)
    ensures ReadListaAny([CSV_HEADERS] + PadAll(rows)) == PadAll(rows)
    ensures Padded(rows) ==> ReadListaAny([CSV_HEADERS] + rows) == rows
  {
    assert ([CSV_HEADERS] + PadAll(rows))[1..] == PadAll(rows);
    assert ([CSV_HEADERS] + rows)[1..] == rows;
  }

  /** `set_lista_any`: the whole table is replaced by the header and the padded rows, in one write. */
  method SetListaAny(ws: Worksheet, rows: seq<Row>)
    modifies ws
    ensures ws.table == [CSV_HEADERS] + PadAll(rows) && ws.writes == old(ws.writes) + 1
    ensures ReadListaAny(ws.table) == PadAll(rows)
  {
    ws.Overwrite([CSV_HEADERS] + PadAll(rows));
    ReadAfterSet(rows);
  }

  predicate HasStatus(row: Row, estado: string) {
    |row| > ESTADO && row[ESTADO] == estado
  }

  /** `filter_by_status`: the rows whose Estado is exactly estado, in their original order. */
  function FilterByStatus(rows: seq<Row>, estado: string): (r: seq<Row>)
    ensures |r| <= |rows|
    ensures forall k :: 0 <= k < |r| ==> HasStatus(r[k], estado)
  {
    if rows == [] then []
    else (if HasStatus(rows[0], estado) then [rows[0]] else []) + FilterByStatus(rows[1..], estado)
  }

  /** A row survives the filter iff it is in the input and has the status. */
  lemma {:induction false} FilterByStatusMembership(rows: seq<Row>, estado: string, x: Row)
    ensures x in FilterByStatus(rows, estado) <==> x in rows && HasStatus(x, estado)
  {
    if rows != [] {
      FilterByStatusMembership(rows[1..], estado, x);
      assert x in rows <==> x == rows[0] || x in rows[1..];
    }
  }

  /** Filtering treats each row on its own, so it keeps the original order. */
  lemma {:induction false} FilterByStatusConcat(a: seq<Row>, b: seq<Row>, estado: string)
    ensures FilterByStatus(a + b, estado) == FilterByStatus(a, estado) + FilterByStatus(b, estado)
  {
    if a == [] {
      assert a + b == b;
    } else {
      assert (a + b)[0] == a[0] && (a + b)[1..] == a[1..] + b;
      FilterByStatusConcat(a[1..], b, estado);
    }
  }

  /**
   * The business-key test of `_find_by_keys_fallback`: same trimmed phone (even when both are
   * empty), or same trimmed DNI when the wanted DNI is not empty.
   */
  predicate KeyHit(r: Row, tel: string, dni: string) {
    Trim(Pad6(r)[TELEFONO]) == tel || (dni != "" && Trim(Pad6(r)[DNI]) == dni)
  }

  function KeyTel(target: Row): string { Trim(Pad6(target)[TELEFONO]) }
  function KeyDni(target: Row): string { Trim(Pad6(target)[DNI]) }

  /** The position `_find_by_keys_fallback` reports: the first key hit, or -1 exactly when no row hits. */
  function FirstKeyHit(rows: seq<Row>, target: Row): (i: int)
    ensures -1 <= i < |rows|
    ensures 0 <= i ==> KeyHit(rows[i], KeyTel(target), KeyDni(target))
    ensures forall j :: 0 <= j < |rows| && (i < 0 || j < i) ==> !KeyHit(rows[j], KeyTel(target), KeyDni(target))
  {
    FirstWhere(rows, r => KeyHit(r, KeyTel(target), KeyDni(target)))
  }

  /** `_find_by_keys_fallback` */
  method FindByKeysFallback(allRows: seq<Row>, target: Row) returns (i: int)
    ensures i == FirstKeyHit(allRows, target)
  {
    var tel := KeyTel(target);
    var dni := KeyDni(target);
    i := 0;
    while i < |allRows|
      invariant 0 <= i <= |allRows|
      invariant forall j :: 0 <= j < i ==> !KeyHit(allRows[j], tel, dni)
    {
      if KeyHit(allRows[i], tel, dni) {
        FirstKeyHitIs(allRows, target, i);
        return;
      }
      i := i + 1;
    }
    i := -1;
    FirstKeyHitIs(allRows, target, i);
  }

  /** A position that hits with no hit before it, or -1 with no hit at all, is the first key hit. */
  lemma FirstKeyHitIs(rows: seq<Row>, target: Row, i: int)
    requires -1 <= i < |rows|
    requires 0 <= i ==> KeyHit(rows[i], KeyTel(target), KeyDni(target))
    requires forall j :: 0 <= j < |rows| && (i < 0 || j < i) ==> !KeyHit(rows[j], KeyTel(target), KeyDni(target))
    ensures FirstKeyHit(rows, target) == i
  {
  }

  /** The key test of the upsert: same phone, not trimmed, or same non-empty DNI. */
  predicate UpsertMatch(r: Row, row: Row) {
    |r| == NCOLS && |row| == NCOLS
    && (r[TELEFONO] == row[TELEFONO] || (row[DNI] != "" && r[DNI] == row[DNI]))
  }

  /**
   * The list an upsert leaves and what it reports: the first row sharing a key with `row` is
   * replaced by it ("updated"), and otherwise `row` is appended ("new").
   */
  function Upsert(rows: seq<Row>, row: Row): (r: (seq<Row>, Outcome))
    requires |row| == NCOLS
    ensures r.1 == Updated <==> exists k :: 0 <= k < |rows| && UpsertMatch(rows[k], row)
    ensures r.1 == New ==> r.0 == rows + [row]
    ensures r.1 == Updated ==>
      exists k :: 0 <= k < |rows| && UpsertMatch(rows[k], row) && r.0 == rows[k := row]
        && forall j :: 0 <= j < k ==> !UpsertMatch(rows[j], row)
  {
    var i := FirstWhere(rows, x => UpsertMatch(x, row));
    if i >= 0 then (rows[i := row], Updated) else (rows + [row], New)
  }

  /** Upserting the same row again reports "updated" and leaves the list as the first upsert left it. */
  lemma UpsertTwice(rows: seq<Row>, row: Row)
    requires |row| == NCOLS
    ensures Upsert(Upsert(rows, row).0, row) == (Upsert(rows, row).0, Updated)
  {
    var once := Upsert(rows, row).0;
    var i := FirstWhere(rows, x => UpsertMatch(x, row));
    var p := if i >= 0 then i else |rows|;
    assert once[p] == row && UpsertMatch(once[p], row);
    assert forall j :: 0 <= j < p ==> once[j] == rows[j];
    var i2 := FirstWhere(once, x => UpsertMatch(x, row));
    assert i2 == p;
    assert once[p := row] == once;
  }

  /** The cells a range update of columns A..F leaves in a sheet row. */
  function OverlayRow(raw: Row, row: Row): (r: Row)
    requires |row| == NCOLS
    ensures Pad6(r) == row
  {
    var r := if |raw| > NCOLS then row + raw[NCOLS..] else row;
    assert r[..NCOLS] == row;
    r
  }

  /** The first padded body row sharing a key with row, by linear scan. */
  method FindUpsertMatch(body: seq<Row>, row: Row) returns (i: int)
    ensures i == FirstWhere(body, x => UpsertMatch(x, row))
  {
    i := 0;
    while i < |body|
      invariant 0 <= i <= |body|
      invariant forall j :: 0 <= j < i ==> !UpsertMatch(body[j], row)
    {
      if UpsertMatch(body[i], row) {
        return;
      }
      i := i + 1;
    }
    i := -1;
  }

  /**
   * `append_contact_any`. Both backends leave the body `Upsert` describes and report its outcome.
   * The CSV backend rewrites the whole file once; the sheet backend updates the matched row in
   * place or appends, after first writing the header into an empty sheet.
   */
  method AppendContactAny(ws: Worksheet, backend: Backend, input: Row) returns (outcome: Outcome)
    modifies ws
    ensures (ReadListaAny(ws.table), outcome) == Upsert(ReadListaAny(old(ws.table)), Pad6(input))
    ensures backend == Csv ==>
      ws.table == [CSV_HEADERS] + ReadListaAny(ws.table) && ws.writes == old(ws.writes) + 1
    ensures backend == Sheets ==>
      ws.writes == old(ws.writes) + (if old(ws.table) == [] then 2 else 1)
  {
    if backend == Sheets {
      outcome := AppendRowSheets(ws, Pad6(input));
    } else {
      outcome := AppendRowCsv(ws, Pad6(input));
    }
  }

  /** The Sheets branch of `append_contact_any`: write the header first on an empty sheet, then update or append one row. */
  method AppendRowSheets(ws: Worksheet, row: Row) returns (outcome: Outcome)
    requires |row| == 6
    modifies ws
    ensures (ReadListaAny(ws.table), outcome) == Upsert(ReadListaAny(old(ws.table)), row)
    ensures ws.writes == old(ws.writes) + (if old(ws.table) == [] then 2 else 1)
  {
    var vals := ws.table;
    if vals == [] {
      ws.Overwrite([CSV_HEADERS]);
      ws.AppendRow(row);
      assert ws.table == [CSV_HEADERS, row];
      assert ReadListaAny(ws.table) == [row] == [] + [row];
      return New;
    }
    var body := ReadListaAny(vals);
    var i := FindUpsertMatch(body, row);
    if i >= 0 {
      ws.UpdateRow(i + 1, OverlayRow(vals[i + 1], row));
      assert ReadListaAny(ws.table) == body[i := row];
      return Updated;
    }
    ws.AppendRow(row);
    assert ReadListaAny(ws.table) == body + [row];
    return New;
  }

  /** The CSV branch of `append_contact_any`: read the whole body, update or append, write it all back. */
  method AppendRowCsv(ws: Worksheet, row: Row) returns (outcome: Outcome)
    requires |row| == 6
    modifies ws
    ensures (ReadListaAny(ws.table), outcome) == Upsert(ReadListaAny(old(ws.table)), row)
    ensures ws.table == [CSV_HEADERS] + ReadListaAny(ws.table) && ws.writes == old(ws.writes) + 1
  {
    var rows := ReadListaAny(ws.table);
    var i := FindUpsertMatch(rows, row);
    if i >= 0 {
      rows := rows[i := row];
      SetListaAny(ws, rows);
      return Updated;
    }
    rows := rows + [row];
    SetListaAny(ws, rows);
    return New;
  }


  /** The Observación left by a status change: the note for "Contactar Luego", cleared for a released or claimed row. */
  function NoteAfter(estado: string, obs: string, current: string): string {
    if estado == CONTACTAR_LUEGO then obs
    else if estado == PENDIENTE || StartsWith(estado, EN_CONTACTO) then ""
    else current
  }

  /** Whether the status change also writes the Observación cell. */
  predicate TouchesNote(estado: string) {
    estado == CONTACTAR_LUEGO || estado == PENDIENTE || StartsWith(estado, EN_CONTACTO)
  }

  function WithEstado(row: Row, estado: string, obs: string): (r: Row)
    requires |row| == NCOLS
    ensures |r| == NCOLS
  {
    row[ESTADO := estado][OBSERVACION := NoteAfter(estado, obs, row[OBSERVACION])]
  }

  /** The row `update_estado_by_row_index` changes: the first exact copy of the target, else the first key hit. */
  function LocateRow(rows: seq<Row>, target: Row): (i: int)
    ensures -1 <= i < |rows|
    ensures (exists k :: 0 <= k < |rows| && Pad6(rows[k]) == Pad6(target)) ==>
      0 <= i && Pad6(rows[i]) == Pad6(target) && forall j :: 0 <= j < i ==> Pad6(rows[j]) != Pad6(target)
    ensures (forall k :: 0 <= k < |rows| ==> Pad6(rows[k]) != Pad6(target)) ==> i == FirstKeyHit(rows, target)
  {
    var e := FirstWhere(rows, r => Pad6(r) == Pad6(target));
    if e >= 0 then e else FirstKeyHit(rows, target)
  }

  /**
   * The body after a status update aimed at `target`: nothing when no row is found; otherwise the
   * located row gets the new Estado and the Observación the rule dictates, its other cells and
   * every other row unchanged.
   */
  function UpdateEstadoRows(rows: seq<Row>, target: Row, estado: string, obs: string): (r: Option<seq<Row>>)
    requires Padded(rows)
    ensures r.None? <==> LocateRow(rows, target) < 0
    ensures r.Some? ==>
      var i := LocateRow(rows, target);
      |r.value| == |rows| && Padded(r.value)
      && (forall j :: 0 <= j < |rows| && j != i ==> r.value[j] == rows[j])
      && (forall c :: 0 <= c < ESTADO ==> r.value[i][c] == rows[i][c])
      && r.value[i][ESTADO] == estado
      && (estado == CONTACTAR_LUEGO ==> r.value[i][OBSERVACION] == obs)
      && (estado != CONTACTAR_LUEGO && (estado == PENDIENTE || StartsWith(estado, EN_CONTACTO)) ==> r.value[i][OBSERVACION] == "")
      && (!TouchesNote(estado) ==> r.value[i][OBSERVACION] == rows[i][OBSERVACION])
  {
    var i := LocateRow(rows, target);
    if i < 0 then None else Some(rows[i := WithEstado(rows[i], estado, obs)])
  }

  /** Writing a cell into a sheet row and padding it commute, for the six roster columns. */
  lemma PadSetCell(raw: Row, c: nat, v: string)
    requires c < NCOLS
    ensures Pad6(SetCell(raw, c, v)) == Pad6(raw)[c := v]
  {
  }

  /** The lookup of `update_estado_by_row_index`: first the exact padded row, then the key fallback. */
  method LocateTarget(rows: seq<Row>, target: Row) returns (i: int)
    ensures i == LocateRow(rows, target)
  {
    i := FirstWhere(rows, r => Pad6(r) == Pad6(target));
    if i < 0 {
      i := FindByKeysFallback(rows, target);
    }
  }

  /** The sheet branch once the row is located: one cell write for Estado, one more when the note changes. */
  method UpdateEstadoCells(ws: Worksheet, realIdx: nat, estado: string, obs: string)
    requires realIdx + 1 < |ws.table|
    modifies ws
    ensures var rows := ReadListaAny(old(ws.table));
      ReadListaAny(ws.table) == rows[realIdx := WithEstado(rows[realIdx], estado, obs)]
    ensures ws.writes == old(ws.writes) + (if TouchesNote(estado) then 2 else 1)
  {
    ghost var rows := ReadListaAny(ws.table);
    var raw0 := ws.table[realIdx + 1];
    ws.UpdateCell(realIdx + 1, ESTADO, estado);
    PadSetCell(raw0, ESTADO, estado);
    var raw1 := ws.table[realIdx + 1];
    if estado == CONTACTAR_LUEGO {
      ws.UpdateCell(realIdx + 1, OBSERVACION, obs);
      PadSetCell(raw1, OBSERVACION, obs);
    } else if estado == PENDIENTE || StartsWith(estado, EN_CONTACTO) {
      ws.UpdateCell(realIdx + 1, OBSERVACION, "");
      PadSetCell(raw1, OBSERVACION, "");
    }
    assert Pad6(ws.table[realIdx + 1]) == WithEstado(rows[realIdx], estado, obs);
  }

  /** The writes one located update costs: one or two cell writes on a sheet, one rewrite of a CSV file. */
  function WritesOfUpdate(backend: Backend, estado: string): nat {
    if backend == Csv then 1 else if TouchesNote(estado) then 2 else 1
  }

  /**
   * `update_estado_by_row_index`. The target is the padded `baseRows[absIndex]`. When a row is
   * located both backends leave the body `UpdateEstadoRows` describes; when none is, nothing is
   * written, and the sheet backend raises while the CSV backend returns quietly.
   */
  method UpdateEstadoByRowIndex(ws: Worksheet, backend: Backend, absIndex: nat, estado: string,
                                baseRows: seq<Row>, obs: string) returns (res: Result<()>)
    requires absIndex < |baseRows|
    modifies ws
    ensures var expected := UpdateEstadoRows(ReadListaAny(old(ws.table)), Pad6(baseRows[absIndex]), estado, obs);
      && (expected.Some? ==> res.Ok? && ReadListaAny(ws.table) == expected.value
                             && ws.writes == old(ws.writes) + WritesOfUpdate(backend, estado))
      && (expected.None? ==> ws.table == old(ws.table) && ws.writes == old(ws.writes)
                             && (res.Err? <==> backend == Sheets))
    ensures backend == Csv ==> res.Ok?
  {
    var rows := ReadListaAny(ws.table);
    var target := Pad6(baseRows[absIndex]);
    var realIdx := LocateTarget(rows, target);
    if backend == Sheets {
      if realIdx < 0 {
        return Err("No se encontr\U{f3} la fila a actualizar.");
      }
      UpdateEstadoCells(ws, realIdx, estado, obs);
      return Ok(());
    } else {
      if 0 <= realIdx < |rows| {
        var r := WithEstado(rows[realIdx], estado, obs);
        rows := rows[realIdx := r];
        SetListaAny(ws, rows);
      }
      return Ok(());
    }
  }
}
