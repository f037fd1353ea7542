/**
 * The legacy Google Contacts export (Funcionalidades/contactos.py): the first record of the
 * roster CSV names its columns, and every later record becomes a six-cell Google row, each
 * roster column copied to the Google column `trad_columna` pairs it with.
 *
 * The output file is written only after every record has been translated, so a record too
 * short for one of the columns its header names leaves the output untouched.
 */
module Contactos {
  import opened Wrappers
  import opened Config
  import opened SheetStore
  import opened Seqs

  type Row = seq<string>

  /** `trad_columna`: roster column name to Google column name. */
  const TRAD: map<string, string> := map[
    "Nombre" := "Given Name",
    "Apellido" := "Family Name",
    "Tel\U{e9}fono" := "Phone 1 - Value",
    "Estado" := "Labels",
    "DNI" := "Nickname"]

  /** The keys of `trad_columna` in the order the loop visits them. */
  const SOURCES: seq<string> := ["Nombre", "Apellido", "Tel\U{e9}fono", "Estado", "DNI"]

  /** `google_indices["Notes"]`: the one Google column no roster column feeds. */
  const NOTES: nat := 5

  /**
   * `next(reader)` on an empty file raises StopIteration; `genContacts` is a coroutine, so the
   * caller sees it turned into a RuntimeError (PEP 479).
   */
  const STOP_ITERATION := "RuntimeError: coroutine raised StopIteration"
  const INDEX_ERROR := "IndexError: list index out of range"

  /**
   * The translation table read in visiting order: the k-th roster column goes to Google column
   * k, the position `google_indices` gives its target, and nothing goes to Notes.
   */
  lemma TranslationAligned()
    ensures |SOURCES| == 5 && forall src :: src in TRAD <==> src in SOURCES
    ensures forall k :: 0 <= k < 5 ==> SOURCES[k] in TRAD && LastPos(GOOGLE_HEADERS, TRAD[SOURCES[k]]) == k
    ensures GOOGLE_HEADERS[NOTES] == "Notes" && forall src :: src in TRAD ==> TRAD[src] != "Notes"
  {
    assert TRAD.Keys == {SOURCES[0], SOURCES[1], SOURCES[2], SOURCES[3], SOURCES[4]};
    forall k | 0 <= k < 5 ensures SOURCES[k] in TRAD && LastPos(GOOGLE_HEADERS, TRAD[SOURCES[k]]) == k {
      TargetColumn(k);
    }
    forall src | src in TRAD ensures TRAD[src] != "Notes" {
      var k :| 0 <= k < 5 && SOURCES[k] == src;
      TargetColumn(k);
      DistinctHeaders(k);
    }
  }

  /** The k-th roster column is a key of the table whose target sits at Google position k. */
  lemma TargetColumn(k: nat)
    requires k < 5
    ensures SOURCES[k] in TRAD && TRAD[SOURCES[k]] == GOOGLE_HEADERS[k]
    ensures LastPos(GOOGLE_HEADERS, TRAD[SOURCES[k]]) == k
  {
    DistinctHeaders(k);
    if k == 0 {
      assert TRAD[SOURCES[0]] == GOOGLE_HEADERS[0];
    } else if k == 1 {
      assert TRAD[SOURCES[1]] == GOOGLE_HEADERS[1];
    } else if k == 2 {
      assert TRAD[SOURCES[2]] == GOOGLE_HEADERS[2];
    } else if k == 3 {
      assert TRAD[SOURCES[3]] == GOOGLE_HEADERS[3];
    } else {
      assert TRAD[SOURCES[4]] == GOOGLE_HEADERS[4];
    }
  }

  /** No Google header repeats after its own position. */
  lemma DistinctHeaders(k: nat)
    requires k < 6
    ensures forall j :: k < j < 6 ==> GOOGLE_HEADERS[j] != GOOGLE_HEADERS[k]
  {
    assert GOOGLE_HEADERS[0][0] == 'G' && GOOGLE_HEADERS[1][0] == 'F' && GOOGLE_HEADERS[2][0] == 'P';
    assert GOOGLE_HEADERS[3][0] == 'L' && GOOGLE_HEADERS[4][0] == 'N' && GOOGLE_HEADERS[5][0] == 'N';
    assert GOOGLE_HEADERS[4][1] == 'i' && GOOGLE_HEADERS[5][1] == 'o';
  }

  /** `input_indices[SOURCES[k]]`: the last position of the k-th roster column among the headers, or -1. */
  function Column(hs: seq<string>, k: nat): int
    requires k < 5
  {
    LastPos(hs, SOURCES[k])
  }

  /** The record has a cell for every translated column its header names. */
  predicate Fits(row: Row, hs: seq<string>) {
    forall k :: 0 <= k < 5 ==> Column(hs, k) < |row|
  }

  /** The Google row of a record: the five translated cells, "" where the header lacks the column, then Notes. */
  function Translated(row: Row, hs: seq<string>): (g: Row)
    requires Fits(row, hs)
    ensures |g| == |GOOGLE_HEADERS| && g[NOTES] == ""
  {
    seq(6, j requires 0 <= j < 6 => if j < 5 && Column(hs, j) >= 0 then row[Column(hs, j)] else "")
  }

  /**
   * Every pair of `trad_columna` is honoured: the Google column named by the pair holds the
   * record's cell under the roster column's last occurrence in the header, or "" when the
   * header does not have it.
   */
  lemma TranslatedByName(row: Row, hs: seq<string>, src: string)
    requires Fits(row, hs) && src in TRAD
    requires src in hs ==> LastPos(hs, src) < |row|
    ensures var g := Translated(row, hs);
      var j := LastPos(GOOGLE_HEADERS, TRAD[src]);
      0 <= j < |g| && g[j] == (if src in hs then row[LastPos(hs, src)] else "")
  {
    assert TRAD.Keys == {SOURCES[0], SOURCES[1], SOURCES[2], SOURCES[3], SOURCES[4]};
    var k :| 0 <= k < 5 && SOURCES[k] == src;
    TargetColumn(k);
  }

  /** One record's translation, or IndexError when a named column lies past its end. */
  function GoogleRowOf(row: Row, hs: seq<string>): Result<Row> {
    if Fits(row, hs) then Ok(Translated(row, hs)) else Err(INDEX_ERROR)
  }

  /** The translations of the records after the header, the first failure ending the loop. */
  function Rows(body: seq<Row>, hs: seq<string>): (r: Result<seq<Row>>)
    ensures r.Ok? <==> forall i :: 0 <= i < |body| ==> Fits(body[i], hs)
    ensures r.Err? ==> r == Err(INDEX_ERROR)
    ensures r.Ok? ==> |r.value| == |body| && forall i :: 0 <= i < |body| ==> r.value[i] == Translated(body[i], hs)
  {
    if body == [] then Ok([])
    else match GoogleRowOf(body[0], hs)
      case Err(e) => Err(e)
      case Ok(g) =>
        var rest := Rows(body[1..], hs);
        assert forall i :: 1 <= i < |body| ==> body[i] == body[1..][i - 1];
        if rest.Err? then rest else Ok([g] + rest.value)
  }

  /**
   * What `genContacts` writes: the Google header, then one translated row per record after the
   * first, in order. An empty file fails on reading its header; a record too short for one of
   * the named columns fails.
   */
  function ContactsOf(table: seq<Row>): (r: Result<seq<Row>>)
    ensures table == [] ==> r == Err(STOP_ITERATION)
    ensures r.Ok? <==> table != [] && forall i :: 1 <= i < |table| ==> Fits(table[i], table[0])
    ensures r.Err? && table != [] ==> r == Err(INDEX_ERROR)
    ensures r.Ok? ==> && |r.value| == |table| && r.value[0] == GOOGLE_HEADERS
                      && forall i :: 1 <= i < |table| ==> r.value[i] == Translated(table[i], table[0])
  {
    if table == [] then Err(STOP_ITERATION)
    else
      var rows := Rows(table[1..], table[0]);
      assert forall i :: 1 <= i < |table| ==> table[i] == table[1..][i - 1];
      if rows.Err? then Err(rows.reason)
      else
        WithHeader(table, rows.value);
        Ok([GOOGLE_HEADERS] + rows.value)
  }

  /** The Google header followed by the translations of the records after the first, re-indexed by record. */
  lemma WithHeader(table: seq<Row>, rows: seq<Row>)
    requires table != [] && |rows| == |table| - 1
    requires forall i :: 0 <= i < |rows| ==> Fits(table[1..][i], table[0]) && rows[i] == Translated(table[1..][i], table[0])
    ensures var t := [GOOGLE_HEADERS] + rows;
      |t| == |table| && t[0] == GOOGLE_HEADERS
      && forall i :: 1 <= i < |table| ==> Fits(table[i], table[0]) && t[i] == Translated(table[i], table[0])
  {
    forall i | 1 <= i < |table|
      ensures Fits(table[i], table[0]) && ([GOOGLE_HEADERS] + rows)[i] == Translated(table[i], table[0])
    {
      assert table[i] == table[1..][i - 1];
    }
  }

  /** The inner loop: the new row starts as six empty cells and each named roster column is copied over. */
  method TranslateRow(row: Row, hs: seq<string>) returns (r: Result<Row>)
    ensures r == GoogleRowOf(row, hs)
  {
    var cells: Row := seq(|GOOGLE_HEADERS|, _ => "");
    for k := 0 to 5
      invariant |cells| == 6
      invariant forall j :: 0 <= j < k ==> Column(hs, j) < |row|
      invariant forall j :: 0 <= j < 6 ==> cells[j] == if j < k && Column(hs, j) >= 0 then row[Column(hs, j)] else ""
    {
      var idx := LastPos(hs, SOURCES[k]);
      TargetColumn(k);
      if idx >= 0 {
        if idx >= |row| {
          assert Column(hs, k) >= |row| && !Fits(row, hs);
          return Err(INDEX_ERROR);
        }
        cells := cells[LastPos(GOOGLE_HEADERS, TRAD[SOURCES[k]]) := row[idx]];
      }
    }
    assert Fits(row, hs);
    var g := Translated(row, hs);
    assert |g| == 6 && forall j :: 0 <= j < 6 ==> cells[j] == g[j];
    assert cells == g;
    assert GoogleRowOf(row, hs) == Ok(g);
    return Ok(cells);
  }

  /** The outer loop: the header is consumed, then every record is translated and collected. */
  method Translate(table: seq<Row>) returns (r: Result<seq<Row>>)
    ensures r == ContactsOf(table)
  {
    if table == [] {
      return Err(STOP_ITERATION);
    }
    var hs := table[0];
    var out: seq<Row> := [];
    for i := 1 to |table|
      invariant |out| == i - 1
      invariant forall j :: 1 <= j < i ==> Fits(table[j], hs) && out[j - 1] == Translated(table[j], hs)
    {
      var g := TranslateRow(table[i], hs);
      if g.Err? {
        return Err(g.reason);
      }
      out := out + [g.value];
    }
    r := Ok([GOOGLE_HEADERS] + out);
    assert r.value == ContactsOf(table).value;
  }

  /**
   * `genContacts`: the translated rows go to the output file, which nothing else touches; when
   * the translation fails the output is left as it was.
   */
  method GenContacts(origen: Worksheet, destino: Worksheet) returns (err: Option<string>)
    modifies destino
    ensures match ContactsOf(old(origen.table))
      case Ok(t) => err.None? && destino.table == t && destino.writes == old(destino.writes) + 1
      case Err(e) => err == Some(e) && destino.table == old(destino.table) && destino.writes == old(destino.writes)
  {
    var r := Translate(origen.table);
    if r.Err? {
      return Some(r.reason);
    }
    destino.Overwrite(r.value);
    return None;
  }
}
