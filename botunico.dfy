/**
 * The single-file bot (bot_unico.py): a CSV roster of five columns read with flexible headers,
 * the Google Contacts and vCard exports built from it, the `/pop_pendientes` command that moves
 * a pending person to a final status, and the paged listing.
 *
 * A CSV file is a Worksheet whose table is the file's rows, header included. The file a command
 * names is passed in; creating a missing file is left out.
 */
module BotUnico {
  import opened Wrappers
  import opened Text
  import opened Config
  import opened SheetStore
  import Pagination
  import Edit
  import Exports
  import opened Seqs

  /** The five standard columns of this bot's roster. */
  const STD_HEADERS: seq<string> := ["Nombre", "Apellido", "Tel\U{e9}fono", "DNI", "Estado"]

  /** The header of a file already in the standard form. */
  predicate IsStdHeader(h: seq<string>) {
    h == STD_HEADERS
  }

  /** The accepted header names of each column, in order of preference, as they compare after `_norm`. */
  function Aliases(t: nat): seq<string>
    requires t < 5
  {
    if t == 0 then ["nombre"]
    else if t == 1 then ["apellido"]
    else if t == 2 then ["telefono", "tel\U{e9}fono", "telefono celular", "tel"]
    else if t == 3 then ["dni", "documento", "doc", "email"]
    else ["estado", "etiquetas", "status", "label"]
  }

  // ---------------------------------------------------------------------------------------
  // Header mapping (`_header_mapping`)
  // ---------------------------------------------------------------------------------------

  /** The normalised headers. */
  function NormAll(actual: seq<string>): (hs: seq<string>)
    ensures |hs| == |actual| && forall i :: 0 <= i < |actual| ==> hs[i] == Norm(actual[i])
  {
    seq(|actual|, i requires 0 <= i < |actual| => Norm(actual[i]))
  }

  /** Some alias is among the headers. */
  predicate Present(hs: seq<string>, aliases: seq<string>) {
    exists j :: 0 <= j < |aliases| && aliases[j] in hs
  }

  /** The position of the first alias, in order of preference, that the headers contain. */
  function FirstAlias(hs: seq<string>, aliases: seq<string>): (r: Option<nat>)
    ensures r.None? <==> !Present(hs, aliases)
    ensures r.Some? ==> exists j :: 0 <= j < |aliases| && aliases[j] in hs && r.value == LastPos(hs, aliases[j])
                                    && forall l :: 0 <= l < j ==> aliases[l] !in hs
  {
    if aliases == [] then None
    else if aliases[0] in hs then Some(LastPos(hs, aliases[0]) as nat)
    else
      var r := FirstAlias(hs, aliases[1..]);
      assert forall j :: 1 <= j < |aliases| ==> aliases[j] == aliases[1..][j - 1];
      r
  }

  /** For each standard column, the position of its preferred alias among the normalised headers. */
  function Mapping(hs: seq<string>): (m: seq<Option<nat>>)
    ensures |m| == 5 && forall t :: 0 <= t < 5 ==> m[t] == FirstAlias(hs, Aliases(t))
  {
    seq(5, t requires 0 <= t < 5 => FirstAlias(hs, Aliases(t)))
  }

  /** The error for a required column none of whose aliases is present. */
  function MissingColumn(target: string): string {
    "Falta columna requerida para '" + target + "'"
  }

  /**
   * `_header_mapping`: the position of each standard column's preferred alias; Nombre, Apellido
   * and Teléfono are required, and the first one missing fails the read.
   */
  function HeaderMapping(actual: seq<string>): (r: Result<seq<Option<nat>>>)
    ensures r.Ok? ==> |r.value| == 5 && r.value[0].Some? && r.value[1].Some? && r.value[2].Some?
    ensures r.Ok? ==> forall t :: 0 <= t < 5 && r.value[t].Some? ==> r.value[t].value < |actual|
  {
    var m := Mapping(NormAll(actual));
    if m[0].None? then Err(MissingColumn(STD_HEADERS[0]))
    else if m[1].None? then Err(MissingColumn(STD_HEADERS[1]))
    else if m[2].None? then Err(MissingColumn(STD_HEADERS[2]))
    else Ok(m)
  }

  /** The mapping fails exactly when a required column has none of its aliases among the normalised headers. */
  lemma HeaderMappingFails(actual: seq<string>)
    ensures HeaderMapping(actual).Err? <==> exists t :: 0 <= t < 3 && !Present(NormAll(actual), Aliases(t))
  {
    var hs := NormAll(actual);
    var m := Mapping(hs);
    if HeaderMapping(actual).Err? {
      var t := if m[0].None? then 0 else if m[1].None? then 1 else 2;
      assert m[t] == FirstAlias(hs, Aliases(t));
    } else {
      forall t | 0 <= t < 3 ensures Present(hs, Aliases(t)) {
        assert m[t] == FirstAlias(hs, Aliases(t));
      }
    }
  }

  /** The column an alias was found at carries, normalised, that alias. */
  lemma FirstAliasNamesColumn(actual: seq<string>, aliases: seq<string>)
    ensures var r := FirstAlias(NormAll(actual), aliases);
      r.Some? ==> r.value < |actual| && Norm(actual[r.value]) in aliases
  {
  }

  /**
   * A column gets no position when none of its aliases is present, and otherwise the last
   * position of its first alias present, in order of preference.
   */
  lemma HeaderMappingPicks(actual: seq<string>, t: nat)
    requires HeaderMapping(actual).Ok? && t < 5
    ensures var hs := NormAll(actual);
      var p := HeaderMapping(actual).value[t];
      && (p.None? <==> !Present(hs, Aliases(t)))
      && (p.Some? ==> exists j :: 0 <= j < |Aliases(t)| && Aliases(t)[j] in hs && p.value == LastPos(hs, Aliases(t)[j])
                                   && forall l :: 0 <= l < j ==> Aliases(t)[l] !in hs)
  {
    var hs := NormAll(actual);
    assert HeaderMapping(actual).value[t] == FirstAlias(hs, Aliases(t));
  }

  // ---------------------------------------------------------------------------------------
  // Reading the roster (`read_lista`)
  // ---------------------------------------------------------------------------------------

  /** The cell a mapped column takes from a row: stripped, or "" when unmapped or past the row's end. */
  function Get(r: seq<string>, idx: Option<nat>): (v: string)
    ensures Stripped(v)
  {
    if idx.Some? && idx.value < |r| then Trim(r[idx.value]) else ""
  }

  /** One of the three statuses of the roster. */
  predicate IsStatus(s: string) {
    s == ACEPTADO || s == RECHAZADO || s == PENDIENTE
  }

  /** A final status `/pop_pendientes` accepts. */
  predicate IsFinal(s: string) {
    s == ACEPTADO || s == RECHAZADO
  }

  /** Estado normalised: any spelling of aceptado/aceptada or rechazado/rechazada, else Pendiente. */
  function NormEstado(e: string): (v: string)
    ensures IsStatus(v)
  {
    var n := Norm(e);
    if n == "aceptado" || n == "aceptada" then ACEPTADO
    else if n == "rechazado" || n == "rechazada" then RECHAZADO
    else PENDIENTE
  }

  /** A roster row as `read_lista` builds it: five stripped cells, the last a known status. */
  predicate IsStdRow(row: seq<string>) {
    && |row| == 5 && Stripped(row[0]) && Stripped(row[1]) && Stripped(row[2]) && Stripped(row[3])
    && IsStatus(row[4])
  }

  /** The standard row read from a row of a file with other headers. */
  function MappedRow(m: seq<Option<nat>>, r: seq<string>): seq<string>
    requires |m| == 5
  {
    var nombre := Get(r, m[0]);
    var apellido := Get(r, m[1]);
    var telefono := Get(r, m[2]);
    var dni := Get(r, m[3]);
    var estado := NormEstado(Get(r, m[4]));
    [nombre, apellido, telefono, dni, estado]
  }

  /** A row read through the mapping is a standard roster row. */
  lemma MappedRowIsStd(m: seq<Option<nat>>, r: seq<string>)
    requires |m| == 5
    ensures IsStdRow(MappedRow(m, r))
  {
    var row := MappedRow(m, r);
    assert row[0] == Get(r, m[0]) && row[1] == Get(r, m[1]) && row[2] == Get(r, m[2]) && row[3] == Get(r, m[3]);
    assert row[4] == NormEstado(Get(r, m[4]));
  }

  /** The rows of a body, each read through the mapping. */
  function MappedRows(m: seq<Option<nat>>, body: seq<seq<string>>): (out: seq<seq<string>>)
    requires |m| == 5
    ensures |out| == |body| && forall k :: 0 <= k < |body| ==> out[k] == MappedRow(m, body[k])
  {
    if body == [] then [] else [MappedRow(m, body[0])] + MappedRows(m, body[1..])
  }

  /** `read_lista` on a file's rows. */
  function ReadListaOf(rows: seq<seq<string>>): Result<seq<seq<string>>> {
    if rows == [] then Ok([])
    else if IsStdHeader(rows[0]) then Ok(rows[1..])
    else
      match HeaderMapping(rows[0])
      case Err(e) => Err(e)
      case Ok(m) => Ok(MappedRows(m, rows[1..]))
  }

  /** The loop of `read_lista` that reads each row below the header through the mapping. */
  method MapRows(m: seq<Option<nat>>, rows: seq<seq<string>>) returns (out: seq<seq<string>>)
    requires |m| == 5 && rows != []
    ensures out == MappedRows(m, rows[1..])
  {
    out := [];
    for i := 1 to |rows|
      invariant |out| == i - 1 && forall k :: 0 <= k < i - 1 ==> out[k] == MappedRow(m, rows[k + 1])
    {
      out := out + [MappedRow(m, rows[i])];
    }
  }

  /** `read_lista`: the rows as they are below the standard header, else read through the mapping. */
  method ReadLista(file: Worksheet) returns (r: Result<seq<seq<string>>>)
    ensures r == ReadListaOf(file.table)
  {
    var rows := file.table;
    if rows == [] {
      return Ok([]);
    }
    if IsStdHeader(rows[0]) {
      return Ok(rows[1..]);
    }
    var mapping := HeaderMapping(rows[0]);
    if mapping.Err? {
      return Err(mapping.reason);
    }
    var out := MapRows(mapping.value, rows);
    return Ok(out);
  }

  /**
   * What `read_lista` gives: nothing for an empty file; the rows unchanged below the standard
   * header; otherwise one row per data row, of five stripped cells with a normalised status,
   * unless a required column is missing.
   */
  lemma ReadListaShape(rows: seq<seq<string>>)
    ensures rows == [] ==> ReadListaOf(rows) == Ok([])
    ensures rows != [] && IsStdHeader(rows[0]) ==> ReadListaOf(rows) == Ok(rows[1..])
    ensures rows != [] && !IsStdHeader(rows[0]) ==>
      && (ReadListaOf(rows).Err? <==> HeaderMapping(rows[0]).Err?)
      && (ReadListaOf(rows).Ok? ==>
            var out := ReadListaOf(rows).value;
            && |out| == |rows| - 1
            && forall k :: 0 <= k < |out| ==> IsStdRow(out[k]))
  {
    if rows != [] && !IsStdHeader(rows[0]) && HeaderMapping(rows[0]).Ok? {
      var m := HeaderMapping(rows[0]).value;
      forall k | 0 <= k < |rows| - 1 ensures IsStdRow(MappedRows(m, rows[1..])[k]) {
        MappedRowIsStd(m, rows[1..][k]);
      }
    }
  }

  /** A string whose characters normalise one by one to e, and which has nothing to strip, normalises to e. */
  lemma NormLiteral(s: string, e: string)
    requires Stripped(s) && |s| == |e| && forall i :: 0 <= i < |s| ==> NormChar(s[i]) == e[i]
    ensures Norm(s) == e
  {
  }

  lemma NormAceptado()
    ensures Norm(ACEPTADO) == "aceptado"
  {
    forall i | 0 <= i < |ACEPTADO| ensures NormChar(ACEPTADO[i]) == "aceptado"[i] {}
    NormLiteral(ACEPTADO, "aceptado");
  }

  lemma NormRechazado()
    ensures Norm(RECHAZADO) == "rechazado"
  {
    forall i | 0 <= i < |RECHAZADO| ensures NormChar(RECHAZADO[i]) == "rechazado"[i] {}
    NormLiteral(RECHAZADO, "rechazado");
  }

  lemma NormPendiente()
    ensures Norm(PENDIENTE) == "pendiente"
  {
    forall i | 0 <= i < |PENDIENTE| ensures NormChar(PENDIENTE[i]) == "pendiente"[i] {}
    NormLiteral(PENDIENTE, "pendiente");
  }

  /** The three statuses read back as themselves: a normalised roster reads back unchanged. */
  lemma NormEstadoFixed(e: string)
    requires IsStatus(e)
    ensures NormEstado(e) == e
  {
    if e == ACEPTADO {
      NormAceptado();
    } else if e == RECHAZADO {
      NormRechazado();
    } else {
      NormPendiente();
    }
  }

  /** `filter_by_status`: the rows with at least five cells whose fifth is exactly the status, in order. */
  function FilterByStatus(rows: seq<seq<string>>, estado: string): (r: seq<seq<string>>)
    ensures |r| <= |rows|
    ensures forall x :: x in r <==> x in rows && |x| > 4 && x[4] == estado
  {
    if rows == [] then []
    else (if |rows[0]| > 4 && rows[0][4] == estado then [rows[0]] else []) + FilterByStatus(rows[1..], estado)
  }

  // ---------------------------------------------------------------------------------------
  // Google Contacts (`gen_contacts`)
  // ---------------------------------------------------------------------------------------

  /** The Google row of a standard row: given, family, phone, labels (the status), nickname (the DNI), no notes. */
  function ContactRow(row: seq<string>): (g: seq<string>)
    requires |row| == 5
    ensures |g| == |GOOGLE_HEADERS| && g[5] == ""
  {
    [row[0], row[1], row[2], row[4], row[3], ""]
  }

  /** The standard row read back out of its Google row: nothing is lost or moved. */
  lemma ContactRowInverse(row: seq<string>)
    requires |row| == 5
    ensures var g := ContactRow(row); [g[0], g[1], g[2], g[4], g[3]] == row
  {
  }

  /** The output of `gen_contacts` for the rows read: unpacking a row that has not five cells fails. */
  function ContactsOf(body: Result<seq<seq<string>>>): Result<seq<seq<string>>> {
    match body
    case Err(e) => Err(e)
    case Ok(rows) =>
      if exists k :: 0 <= k < |rows| && |rows[k]| != 5 then Err("ValueError: unpacking a row without five cells")
      else Ok([GOOGLE_HEADERS] + seq(|rows|, k requires 0 <= k < |rows| => ContactRow(rows[k])))
  }

  /** `gen_contacts`: the Google header, then one row per roster row. */
  method GenContacts(file: Worksheet) returns (r: Result<seq<seq<string>>>)
    ensures r == ContactsOf(ReadListaOf(file.table))
  {
    var body := ReadLista(file);
    if body.Err? {
      return Err(body.reason);
    }
    var rows := body.value;
    var out := [GOOGLE_HEADERS];
    for i := 0 to |rows|
      invariant |out| == i + 1 && out[0] == GOOGLE_HEADERS
      invariant forall k :: 0 <= k < i ==> |rows[k]| == 5 && out[k + 1] == ContactRow(rows[k])
    {
      if |rows[i]| != 5 {
        return Err("ValueError: unpacking a row without five cells");
      }
      out := out + [ContactRow(rows[i])];
    }
    assert out == [GOOGLE_HEADERS] + seq(|rows|, k requires 0 <= k < |rows| => ContactRow(rows[k]));
    return Ok(out);
  }

  /**
   * Rows of five cells, as `read_lista` gives them for a file with other headers, always export:
   * the Google header, then one row per roster row, each giving back the row it came from.
   */
  lemma RosterExports(rows: seq<seq<string>>)
    requires forall k :: 0 <= k < |rows| ==> |rows[k]| == 5
    ensures var out := ContactsOf(Ok(rows));
      && out.Ok? && |out.value| == |rows| + 1 && out.value[0] == GOOGLE_HEADERS
      && forall k :: 0 <= k < |rows| ==>
           var g := out.value[k + 1];
           [g[0], g[1], g[2], g[4], g[3]] == rows[k]
  {
    forall k | 0 <= k < |rows| ensures var g := ContactsOf(Ok(rows)).value[k + 1]; [g[0], g[1], g[2], g[4], g[3]] == rows[k] {
      ContactRowInverse(rows[k]);
    }
  }

  // ---------------------------------------------------------------------------------------
  // vCard (`gen_vcard`)
  // ---------------------------------------------------------------------------------------

  /** A two-column header (name, phone), compared normalised, joined by commas. */
  predicate IsTwoColumn(header: seq<string>) {
    Norm(Join(header, ",")) in {Norm("Nombre,Tel\U{e9}fono"), Norm("Nombre;Tel\U{e9}fono")}
    || header == ["Nombre", "Tel\U{e9}fono"]
  }

  /** The rows the cards are made from, with the name and phone columns. */
  datatype Source = Source(body: seq<seq<string>>, nameIdx: nat, phoneIdx: nat)

  function VcardSource(rows: seq<seq<string>>): Result<Source>
    requires rows != []
  {
    if IsTwoColumn(rows[0]) then Ok(Source(rows[1..], 0, 1))
    else
      match ReadListaOf(rows)
      case Err(e) => Err(e)
      case Ok(body) => Ok(Source(body, 0, 2))
  }

  /** A row gets a card when it reaches the phone column and its stripped phone is not blank. */
  predicate Emits(row: seq<string>, src: Source) {
    row != [] && |row| > src.phoneIdx && Trim(row[src.phoneIdx]) != ""
  }

  /** The stripped cell of a column, or "" past the row's end. */
  function Cell(row: seq<string>, idx: nat): (v: string)
    ensures Stripped(v)
  {
    if |row| > idx then Trim(row[idx]) else ""
  }

  /** The card of a row numbered n: "Fiscal <etiqueta> <nombre>", or the number for a blank name. */
  function CardOf(row: seq<string>, src: Source, etiqueta: string, n: nat): (lines: seq<string>)
    ensures |lines| == 5
  {
    Exports.Card(Exports.CardDisplay(Exports.Fiscal(etiqueta), Cell(row, src.nameIdx), n), Cell(row, src.phoneIdx))
  }

  /** A way of turning a row and its card number into the card's lines. */
  type Maker = (seq<string>, nat) -> seq<string>

  function MakerFor(src: Source, etiqueta: string): (make: Maker)
    ensures forall row, n :: make(row, n) == CardOf(row, src, etiqueta, n)
  {
    (row: seq<string>, n: nat) => CardOf(row, src, etiqueta, n)
  }

  /** The lines one row adds: its card when it gets one, else nothing. */
  function RowLines(row: seq<string>, src: Source, make: Maker, count: nat): seq<string> {
    if Emits(row, src) then make(row, count + 1) else []
  }

  /** The counter after a row: one more when the row gets a card. */
  function Bump(row: seq<string>, src: Source, count: nat): nat {
    if Emits(row, src) then count + 1 else count
  }

  /** The card lines of rows, `count` cards having been written before them. */
  function VCards(rows: seq<seq<string>>, src: Source, make: Maker, count: nat): seq<string> {
    if rows == [] then []
    else RowLines(rows[0], src, make, count) + VCards(rows[1..], src, make, Bump(rows[0], src, count))
  }

  /** The number of rows that get a card. */
  function Emitted(rows: seq<seq<string>>, src: Source): nat {
    if rows == [] then 0 else (if Emits(rows[0], src) then 1 else 0) + Emitted(rows[1..], src)
  }

  /** Five lines per emitted card and none for the rows skipped. */
  lemma {:induction false} VCardsLength(rows: seq<seq<string>>, src: Source, make: Maker, count: nat)
    requires forall row, n :: |make(row, n)| == 5
    ensures |VCards(rows, src, make, count)| == 5 * Emitted(rows, src)
  {
    if rows != [] {
      VCardsLength(rows[1..], src, make, Bump(rows[0], src, count));
    }
  }

  /** The counter after rows, starting from `count`. */
  function CountAfter(rows: seq<seq<string>>, src: Source, count: nat): nat {
    if rows == [] then count else CountAfter(rows[1..], src, Bump(rows[0], src, count))
  }

  /** The counter goes up by one per card written. */
  lemma {:induction false} CountAfterEmitted(rows: seq<seq<string>>, src: Source, count: nat)
    ensures CountAfter(rows, src, count) == count + Emitted(rows, src)
  {
    if rows != [] {
      CountAfterEmitted(rows[1..], src, Bump(rows[0], src, count));
    }
  }

  /** The counter after a + b is the counter after b, starting where a left it. */
  lemma {:induction false} CountAfterSplit(a: seq<seq<string>>, b: seq<seq<string>>, src: Source, count: nat)
    ensures CountAfter(a + b, src, count) == CountAfter(b, src, CountAfter(a, src, count))
  {
    if a == [] {
      assert a + b == b;
    } else {
      assert (a + b)[0] == a[0] && (a + b)[1..] == a[1..] + b;
      CountAfterSplit(a[1..], b, src, Bump(a[0], src, count));
    }
  }

  /**
   * Cards are numbered by the cards written before them: the cards of a + b are those of a,
   * followed by those of b numbered from where a left the counter.
   */
  lemma {:induction false} VCardsSplit(a: seq<seq<string>>, b: seq<seq<string>>, src: Source, make: Maker, count: nat)
    ensures VCards(a + b, src, make, count)
            == VCards(a, src, make, count) + VCards(b, src, make, CountAfter(a, src, count))
  {
    if a == [] {
      assert a + b == b;
    } else {
      var next := Bump(a[0], src, count);
      var h := RowLines(a[0], src, make, count);
      assert (a + b)[0] == a[0] && (a + b)[1..] == a[1..] + b;
      assert VCards(a + b, src, make, count) == h + VCards(a[1..] + b, src, make, next);
      VCardsSplit(a[1..], b, src, make, next);
      var x := VCards(a[1..], src, make, next);
      var y := VCards(b, src, make, CountAfter(a, src, count));
      assert h + (x + y) == (h + x) + y;
    }
  }

  /** `gen_vcard`: no lines for an empty file; otherwise the cards of the source rows. */
  function VcardOf(rows: seq<seq<string>>, etiqueta: string): Result<seq<string>> {
    if rows == [] then Ok([])
    else
      match VcardSource(rows)
      case Err(e) => Err(e)
      case Ok(src) => Ok(VCards(src.body, src, MakerFor(src, etiqueta), 0))
  }

  /** `gen_vcard`: the source rows of the file, then their cards. */
  method GenVcard(file: Worksheet, etiqueta: string) returns (r: Result<seq<string>>)
    ensures r == VcardOf(file.table, etiqueta)
  {
    var rows := file.table;
    if rows == [] {
      return Ok([]);
    }
    var src: Source;
    if IsTwoColumn(rows[0]) {
      src := Source(rows[1..], 0, 1);
    } else {
      var body := ReadLista(file);
      if body.Err? {
        return Err(body.reason);
      }
      src := Source(body.value, 0, 2);
    }
    var lines := WriteVCards(src, etiqueta);
    return Ok(lines);
  }

  /** One more row moves the counter by one when it gets a card. */
  lemma CountSnoc(prefix: seq<seq<string>>, row: seq<string>, src: Source)
    ensures CountAfter(prefix + [row], src, 0) == Bump(row, src, CountAfter(prefix, src, 0))
  {
    CountAfterSplit(prefix, [row], src, 0);
  }

  /** One more row adds its card, numbered after those before it, when it gets one, and nothing otherwise. */
  lemma VCardsSnoc(prefix: seq<seq<string>>, row: seq<string>, src: Source, make: Maker)
    ensures VCards(prefix + [row], src, make, 0)
            == VCards(prefix, src, make, 0) + RowLines(row, src, make, CountAfter(prefix, src, 0))
  {
    var c := CountAfter(prefix, src, 0);
    VCardsSplit(prefix, [row], src, make, 0);
    assert VCards([row], src, make, c) == RowLines(row, src, make, c) + [];
  }

  /** The loop of `gen_vcard`: it skips rows without a phone and numbers the cards it writes. */
  method WriteVCards(src: Source, etiqueta: string) returns (lines: seq<string>)
    ensures lines == VCards(src.body, src, MakerFor(src, etiqueta), 0)
  {
    var make := MakerFor(src, etiqueta);
    lines := [];
    var count := 0;
    var body := src.body;
    for i := 0 to |body|
      invariant lines == VCards(body[..i], src, make, 0)
      invariant count == CountAfter(body[..i], src, 0)
    {
      var row := body[i];
      Seqs.TakeSnoc(body, i);
      CountSnoc(body[..i], row, src);
      VCardsSnoc(body[..i], row, src, make);
      if row == [] || |row| <= src.phoneIdx {
        assert lines + [] == lines;
        continue;
      }
      var nombre := Cell(row, src.nameIdx);
      var telefono := Trim(row[src.phoneIdx]);
      if telefono == "" {
        assert lines + [] == lines;
        continue;
      }
      assert Emits(row, src);
      count := count + 1;
      var card := Exports.Card(Exports.CardDisplay(Exports.Fiscal(etiqueta), nombre, count), telefono);
      assert card == make(row, count) == RowLines(row, src, make, count - 1);
      lines := lines + card;
    }
    assert body[..|body|] == body;
  }

  // ---------------------------------------------------------------------------------------
  // `/pop_pendientes`
  // ---------------------------------------------------------------------------------------

  /** The command's arguments: too few, or a person, the new status and maybe a file path. */
  datatype PopArgs = PopUsage | Pop(nombre: string, apellido: string, telefono: string, estado: string, path: Option<string>)

  /**
   * The argument parse: three words are required; a fourth that is Aceptado or Rechazado is the
   * new status (default Aceptado) and a fifth the path; any other fourth word is the path.
   */
  function ParsePopArgs(args: seq<string>): (r: PopArgs)
    ensures r.PopUsage? <==> |args| < 3
    ensures r.Pop? ==> r.nombre == args[0] && r.apellido == args[1] && r.telefono == args[2]
                       && IsFinal(r.estado)
  {
    if |args| < 3 then PopUsage
    else if |args| >= 4 && IsFinal(args[3]) then
      Pop(args[0], args[1], args[2], args[3], if |args| >= 5 then Some(args[4]) else None)
    else if |args| >= 4 then Pop(args[0], args[1], args[2], ACEPTADO, Some(args[3]))
    else Pop(args[0], args[1], args[2], ACEPTADO, None)
  }

  /**
   * Arguments written as person, status and path read back as such; a path in the status's
   * place is read as the path with the default status.
   */
  lemma PopArgsRoundTrip(n: string, a: string, t: string, estado: string, path: string)
    ensures IsFinal(estado) ==>
      ParsePopArgs([n, a, t, estado, path]) == Pop(n, a, t, estado, Some(path))
      && ParsePopArgs([n, a, t, estado]) == Pop(n, a, t, estado, None)
    ensures !IsFinal(path) ==> ParsePopArgs([n, a, t, path]) == Pop(n, a, t, ACEPTADO, Some(path))
    ensures ParsePopArgs([n, a, t]) == Pop(n, a, t, ACEPTADO, None)
  {
  }

  /** `list.index`: the position of the first element equal to x, or -1. */
  function FirstEqual(rows: seq<seq<string>>, x: seq<string>): (k: int)
    ensures -1 <= k < |rows|
    ensures k >= 0 ==> rows[k] == x && x !in rows[..k]
    ensures k < 0 <==> x !in rows
  {
    if rows == [] then -1
    else if rows[0] == x then 0
    else
      var k := FirstEqual(rows[1..], x);
      if k < 0 then -1
      else
        assert rows[1..][..k] == rows[1..k + 1];
        k + 1
  }

  /**
   * The list update as written: look for the four cells [nombre, apellido, telefono,
   * "Pendiente"], remove the first row equal to them and append the row with the new status.
   */
  function PopAsWritten(rows: seq<seq<string>>, n: string, a: string, t: string, nuevo: string): Option<seq<seq<string>>> {
    var buscando := [n, a, t, PENDIENTE];
    var k := FirstEqual(rows, buscando);
    if k < 0 then None else Some(rows[..k] + rows[k + 1..] + [[n, a, t, nuevo]])
  }

  /**
   * As written the update never finds a row of five cells, and every row read from a roster
   * with other headers has five: on such a file the command always answers that the person is
   * not pending.
   */
  lemma PopAsWrittenMissesRoster(rows: seq<seq<string>>, n: string, a: string, t: string, nuevo: string)
    requires forall k :: 0 <= k < |rows| ==> |rows[k]| == 5
    ensures PopAsWritten(rows, n, a, t, nuevo).None?
  {
    var buscando := [n, a, t, PENDIENTE];
    assert buscando !in rows by {
      forall k | 0 <= k < |rows| ensures rows[k] != buscando {
        assert |rows[k]| != |buscando|;
      }
    }
  }

  /** A concrete pending person that the update as written does not find. */
  lemma PopAsWrittenExample()
    ensures var rows := [["Ana", "Paz", "1155", "30111222", PENDIENTE]];
      && PopAsWritten(rows, "Ana", "Paz", "1155", ACEPTADO).None?
      && PopPendiente(rows, "Ana", "Paz", "1155", ACEPTADO) == Some([["Ana", "Paz", "1155", "30111222", ACEPTADO]])
  {
    var rows := [["Ana", "Paz", "1155", "30111222", PENDIENTE]];
    PopAsWrittenMissesRoster(rows, "Ana", "Paz", "1155", ACEPTADO);
    assert IsPendingPerson(rows[0], "Ana", "Paz", "1155");
    assert FirstPending(rows, "Ana", "Paz", "1155") == 0;
    assert rows[..0] + rows[1..] == [];
    assert rows[0][4 := ACEPTADO] == ["Ana", "Paz", "1155", "30111222", ACEPTADO];
    var moved := rows[0][4 := ACEPTADO];
    assert PopPendiente(rows, "Ana", "Paz", "1155", ACEPTADO) == Some(rows[..0] + rows[1..] + [moved]);
    assert rows[..0] + rows[1..] + [moved] == [moved];
  }

  /** A row of the five-column roster for the person, still pending. */
  predicate IsPendingPerson(row: seq<string>, n: string, a: string, t: string) {
    |row| == 5 && row[0] == n && row[1] == a && row[2] == t && row[4] == PENDIENTE
  }

  /** The first row of the person that is still pending, or -1. */
  function FirstPending(rows: seq<seq<string>>, n: string, a: string, t: string): (k: int)
    ensures -1 <= k < |rows|
    ensures k >= 0 ==> IsPendingPerson(rows[k], n, a, t)
    ensures forall j :: 0 <= j < |rows| && (k < 0 || j < k) ==> !IsPendingPerson(rows[j], n, a, t)
  {
    if rows == [] then -1
    else if IsPendingPerson(rows[0], n, a, t) then 0
    else
      var k := FirstPending(rows[1..], n, a, t);
      if k < 0 then -1 else k + 1
  }

  /**
   * The update as intended: the person's first pending row of the five-column roster is moved
   * to the end with the new status, its DNI kept; with no such row nothing changes.
   */
  function PopPendiente(rows: seq<seq<string>>, n: string, a: string, t: string, nuevo: string): Option<seq<seq<string>>> {
    var k := FirstPending(rows, n, a, t);
    if k < 0 then None else Some(rows[..k] + rows[k + 1..] + [rows[k][4 := nuevo]])
  }

  /**
   * The intended update finds the person exactly when they have a pending row; it then keeps
   * every other row in order, leaves one pending row fewer for them, and ends with their row
   * carrying the new status and the same name, phone and DNI.
   */
  lemma PopPendienteMoves(rows: seq<seq<string>>, n: string, a: string, t: string, nuevo: string)
    requires nuevo != PENDIENTE
    ensures var r := PopPendiente(rows, n, a, t, nuevo);
      && (r.Some? <==> exists j :: 0 <= j < |rows| && IsPendingPerson(rows[j], n, a, t))
      && (r.Some? ==>
            var k := FirstPending(rows, n, a, t);
            var out := r.value;
            && |out| == |rows|
            && out[..|out| - 1] == rows[..k] + rows[k + 1..]
            && out[|out| - 1][..4] == rows[k][..4] && out[|out| - 1][4] == nuevo
            && !IsPendingPerson(out[|out| - 1], n, a, t))
  {
    var k := FirstPending(rows, n, a, t);
    if k >= 0 {
      var out := rows[..k] + rows[k + 1..] + [rows[k][4 := nuevo]];
      assert out[..|out| - 1] == rows[..k] + rows[k + 1..];
    }
  }

  /** The reply to `/pop_pendientes`. */
  function PoppedMessage(n: string, a: string, t: string, nuevo: string): string {
    "Actualizado \U{25b6}\U{fe0f} " + n + " " + a + " " + t + " \U{2192} " + nuevo
  }

  const POP_USAGE := "Uso: /pop_pendientes <Nombre> <Apellido> <Telefono> [Aceptado|Rechazado] [ruta_csv]"
  const POP_NOT_FOUND := "No se encontr\U{f3} a la persona en Pendiente. Verific\U{e1} los datos."

  /**
   * `cmd_pop_pendientes`, with the update as intended, on the file its arguments name: the usage
   * line for too few arguments; otherwise the roster is read, and the person's pending row moved
   * to the new status and the file rewritten once, or nothing written when there is none.
   */
  method CmdPopPendientes(file: Worksheet, args: seq<string>) returns (reply: Result<string>)
    modifies file
    ensures match ParsePopArgs(args)
      case PopUsage => reply == Ok(POP_USAGE) && file.table == old(file.table) && file.writes == old(file.writes)
      case Pop(n, a, t, nuevo, _) =>
        match ReadListaOf(old(file.table))
        case Err(e) => reply == Err(e) && file.table == old(file.table) && file.writes == old(file.writes)
        case Ok(rows) =>
          match PopPendiente(rows, n, a, t, nuevo)
          case None => reply == Ok(POP_NOT_FOUND) && file.table == old(file.table) && file.writes == old(file.writes)
          case Some(out) =>
            reply == Ok(PoppedMessage(n, a, t, nuevo)) && file.table == [STD_HEADERS] + out
            && file.writes == old(file.writes) + 1
  {
    var parsed := ParsePopArgs(args);
    if parsed.PopUsage? {
      return Ok(POP_USAGE);
    }
    var read := ReadLista(file);
    if read.Err? {
      return Err(read.reason);
    }
    var updated := PopPendiente(read.value, parsed.nombre, parsed.apellido, parsed.telefono, parsed.estado);
    if updated.None? {
      return Ok(POP_NOT_FOUND);
    }
    file.Overwrite([STD_HEADERS] + updated.value);
    reply := Ok(PoppedMessage(parsed.nombre, parsed.apellido, parsed.telefono, parsed.estado));
  }

  // ---------------------------------------------------------------------------------------
  // The paged listing (`show_rows_with_pagination`)
  // ---------------------------------------------------------------------------------------

  /** `_format_persona`: "tel: nombre, apellido - estado"; a row without five cells fails. */
  function FormatPersona(row: seq<string>): Result<string> {
    if |row| < 5 then Err("IndexError: list index out of range")
    else Ok(row[2] + ": " + row[0] + ", " + row[1] + " - " + row[4])
  }

  /** What the listing shows: no results, or one page with its navigation targets. */
  datatype RowsView =
    | NoResults(text: string)
    | RowsPage(title: string, page: nat, pageCount: nat, lines: seq<string>, previous: Option<nat>, next: Option<nat>)

  /** The lines of a page, failing at the first row that cannot be formatted. */
  function PageLines(chunk: seq<seq<string>>): (r: Result<seq<string>>)
    ensures r.Ok? ==> |r.value| == |chunk| && forall i :: 0 <= i < |chunk| ==> FormatPersona(chunk[i]) == Ok(r.value[i])
    ensures r.Err? <==> exists i :: 0 <= i < |chunk| && FormatPersona(chunk[i]).Err?
  {
    if chunk == [] then Ok([])
    else
      match FormatPersona(chunk[0])
      case Err(e) => Err(e)
      case Ok(line) =>
        match PageLines(chunk[1..])
        case Err(e) =>
          assert forall i :: 1 <= i < |chunk| ==> chunk[i] == chunk[1..][i - 1];
          Err(e)
        case Ok(rest) =>
          assert forall i :: 1 <= i < |chunk| ==> chunk[i] == chunk[1..][i - 1];
          Ok([line] + rest)
  }

  /**
   * `show_rows_with_pagination`: "Sin resultados" for no rows; otherwise the requested page,
   * clamped into the pages, with a way back unless it is the first and a way on unless it is the
   * last.
   */
  function ShowRows(rows: seq<seq<string>>, title: string, page: int, pageSize: nat): Result<RowsView>
    requires pageSize > 0
  {
    if rows == [] then Ok(NoResults("Sin resultados en *" + title + "*."))
    else
      var pages := Pagination.Chunks(rows, pageSize);
      var p := Edit.ClampPage(page, |pages|);
      match PageLines(pages[p])
      case Err(e) => Err(e)
      case Ok(lines) =>
        Ok(RowsPage(title, p, |pages|, lines,
                    if p > 0 then Some(p - 1) else None,
                    if p < |pages| - 1 then Some(p + 1) else None))
  }

  /**
   * The page shown is always a real one, and following its navigation shows the neighbouring
   * page without clamping; the pages together list every row once, in order.
   */
  lemma ShowRowsNavigates(rows: seq<seq<string>>, title: string, page: int, pageSize: nat)
    requires pageSize > 0 && rows != []
    ensures var pages := Pagination.Chunks(rows, pageSize);
      && Pagination.Flatten(pages) == rows
      && (ShowRows(rows, title, page, pageSize).Ok? ==>
            var v := ShowRows(rows, title, page, pageSize).value;
            && v.RowsPage? && v.page < v.pageCount == |pages|
            && (0 <= page < |pages| ==> v.page == page)
            && (v.previous.Some? ==> v.page > 0 && Edit.ClampPage(v.previous.value, |pages|) == v.page - 1)
            && (v.next.Some? ==> v.page < |pages| - 1 && Edit.ClampPage(v.next.value, |pages|) == v.page + 1)
            && (v.previous.None? <==> v.page == 0)
            && (v.next.None? <==> v.page == |pages| - 1))
  {
    Pagination.ChunksFlatten(rows, pageSize);
  }

  // ---------------------------------------------------------------------------------------
  // The text listings (`cmd_get_lista`, `_send_list_by_status`)
  // ---------------------------------------------------------------------------------------

  /** The listings are sent twenty lines per message. */
  const BLOCK: nat := 20

  /** The messages of a listing: consecutive blocks of twenty lines, the last one possibly shorter. */
  function Blocks(lines: seq<string>): seq<string>
    decreases |lines|
  {
    if lines == [] then []
    else if |lines| <= BLOCK then [Join(lines, "\n")]
    else [Join(lines[..BLOCK], "\n")] + Blocks(lines[BLOCK..])
  }

  /**
   * The messages are the chunks of twenty lines joined: every line is sent once, in order, and no
   * message holds more than twenty.
   */
  lemma {:induction false} BlocksAreChunks(lines: seq<string>)
    ensures var cs := Pagination.Chunks(lines, BLOCK);
      && |Blocks(lines)| == |cs|
      && (forall k :: 0 <= k < |cs| ==> Blocks(lines)[k] == Join(cs[k], "\n") && 0 < |cs[k]| <= BLOCK)
      && Pagination.Flatten(cs) == lines
    decreases |lines|
  {
    Pagination.ChunksFlatten(lines, BLOCK);
    if |lines| > BLOCK {
      BlocksAreChunks(lines[BLOCK..]);
      var cs := Pagination.Chunks(lines, BLOCK);
      assert cs == [lines[..BLOCK]] + Pagination.Chunks(lines[BLOCK..], BLOCK);
      forall k | 1 <= k < |cs| ensures Blocks(lines)[k] == Join(cs[k], "\n") {
        assert Blocks(lines)[k] == Blocks(lines[BLOCK..])[k - 1];
        assert cs[k] == Pagination.Chunks(lines[BLOCK..], BLOCK)[k - 1];
      }
    }
  }

  /** A full block followed by more lines is sent as one message, then the rest. */
  lemma BlocksFull(block: seq<string>, rest: seq<string>)
    requires |block| == BLOCK
    ensures Blocks(block + rest) == [Join(block, "\n")] + Blocks(rest)
  {
    if rest == [] {
      assert block + rest == block;
    } else {
      assert (block + rest)[..BLOCK] == block && (block + rest)[BLOCK..] == rest;
    }
  }

  /** Sending a full block: what is still to send after it is the rest alone. */
  lemma BlocksFlush(msgs: seq<string>, block: seq<string>, rest: seq<string>)
    requires |block| == BLOCK
    ensures msgs + Blocks(block + rest) == (msgs + [Join(block, "\n")]) + Blocks([] + rest)
  {
    BlocksFull(block, rest);
    assert [] + rest == rest;
  }

  /** Taking the next line into the block leaves the pending lines as they were. */
  lemma BlocksTake(block: seq<string>, lines: seq<string>, i: nat)
    requires i < |lines|
    ensures block + lines[i..] == (block + [lines[i]]) + lines[i + 1..]
  {
    assert lines[i..] == [lines[i]] + lines[i + 1..];
  }

  /** The position within the block advances by one, wrapping to zero at every twentieth line. */
  lemma BlockPosition(i: nat)
    ensures (i + 1) % BLOCK == 0 ==> i % BLOCK == BLOCK - 1
    ensures (i + 1) % BLOCK != 0 ==> (i + 1) % BLOCK == i % BLOCK + 1
  {
  }

  /** The send loop: lines gather into a block, which goes out at every twentieth line and at the end. */
  method SendBlocks(lines: seq<string>) returns (msgs: seq<string>)
    ensures msgs == Blocks(lines)
  {
    msgs := [];
    var block: seq<string> := [];
    assert [] + lines[0..] == lines;
    for i := 0 to |lines|
      invariant |block| == i % BLOCK
      invariant msgs + Blocks(block + lines[i..]) == Blocks(lines)
    {
      BlocksTake(block, lines, i);
      BlockPosition(i);
      block := block + [lines[i]];
      if (i + 1) % BLOCK == 0 {
        BlocksFlush(msgs, block, lines[i + 1..]);
        msgs := msgs + [Join(block, "\n")];
        block := [];
      }
    }
    assert block + lines[|lines|..] == block;
    if block != [] {
      msgs := msgs + [Join(block, "\n")];
    } else {
      assert msgs + [] == msgs;
    }
  }

  const LIST_EMPTY := "La lista est\U{e1} vac\U{ed}a."

  /**
   * `cmd_get_lista` on the file its argument names: "La lista está vacía." for no rows, otherwise
   * every row formatted and sent twenty to a message; a row too short to format fails.
   */
  method CmdGetLista(file: Worksheet) returns (r: Result<seq<string>>)
    ensures ReadListaOf(file.table).Err? ==> r == Err(ReadListaOf(file.table).reason)
    ensures ReadListaOf(file.table).Ok? && ReadListaOf(file.table).value == [] ==> r == Ok([LIST_EMPTY])
    ensures ReadListaOf(file.table).Ok? && ReadListaOf(file.table).value != [] ==>
      var lines := PageLines(ReadListaOf(file.table).value);
      && (lines.Err? ==> r == Err(lines.reason))
      && (lines.Ok? ==> r == Ok(Blocks(lines.value)))
  {
    var read := ReadLista(file);
    if read.Err? {
      return Err(read.reason);
    }
    var rows := read.value;
    if rows == [] {
      return Ok([LIST_EMPTY]);
    }
    var lines := PageLines(rows);
    if lines.Err? {
      return Err(lines.reason);
    }
    var msgs := SendBlocks(lines.value);
    return Ok(msgs);
  }

  /** The short line of a filtered listing: "tel: nombre, apellido". */
  function ShortLine(row: seq<string>): string
    requires |row| > 2
  {
    row[2] + ": " + row[0] + ", " + row[1]
  }

  function ShortLines(rows: seq<seq<string>>): (lines: seq<string>)
    requires forall k :: 0 <= k < |rows| ==> |rows[k]| > 2
    ensures |lines| == |rows| && forall k :: 0 <= k < |rows| ==> lines[k] == ShortLine(rows[k])
  {
    seq(|rows|, k requires 0 <= k < |rows| => ShortLine(rows[k]))
  }

  /**
   * `_send_list_by_status`: "No hay personas <titulo>." for no rows, otherwise an announcement
   * followed by the rows' short lines twenty to a message.
   */
  method SendByStatus(rows: seq<seq<string>>, titulo: string) returns (msgs: seq<string>)
    requires forall k :: 0 <= k < |rows| ==> |rows[k]| > 2
    ensures rows == [] ==> msgs == ["No hay personas " + Lower(titulo) + "."]
    ensures rows != [] ==> msgs == ["Esta es la lista de personas " + Lower(titulo) + ":"] + Blocks(ShortLines(rows))
  {
    if rows == [] {
      return ["No hay personas " + Lower(titulo) + "."];
    }
    var blocks := SendBlocks(ShortLines(rows));
    msgs := ["Esta es la lista de personas " + Lower(titulo) + ":"] + blocks;
  }

  /**
   * `cmd_get_pendientes`, `cmd_get_aceptados`, `cmd_get_rechazados`: the rows of the file with
   * the status, listed under the title.
   */
  method CmdGetByStatus(file: Worksheet, estado: string, titulo: string) returns (r: Result<seq<string>>)
    ensures ReadListaOf(file.table).Err? ==> r == Err(ReadListaOf(file.table).reason)
    ensures ReadListaOf(file.table).Ok? ==>
        var hits := FilterByStatus(ReadListaOf(file.table).value, estado);
        && (forall k :: 0 <= k < |hits| ==> |hits[k]| > 2)
        && (hits == [] ==> r == Ok(["No hay personas " + Lower(titulo) + "."]))
        && (hits != [] ==> r == Ok(["Esta es la lista de personas " + Lower(titulo) + ":"] + Blocks(ShortLines(hits))))
  {
    var read := ReadLista(file);
    if read.Err? {
      return Err(read.reason);
    }
    var hits := FilterByStatus(read.value, estado);
    assert forall k :: 0 <= k < |hits| ==> hits[k] in hits;
    var msgs := SendByStatus(hits, titulo);
    return Ok(msgs);
  }

  // ---------------------------------------------------------------------------------------
  // The inline menu (`on_menu_callback`, `on_page_callback`)
  // ---------------------------------------------------------------------------------------

  /** What a menu button asks for. */
  datatype MenuAction = ViewAll | ViewStatus(estado: string) | ExportContacts | ExportVcard | NoAction

  const FILTER_PREFIX := "MENU:FILTRO:"

  /**
   * `on_menu_callback`: the whole list, the rows of the status after "MENU:FILTRO:" (the rest of
   * the data, colons included), one of the two exports, or nothing.
   */
  function MenuDispatch(data: string): (a: MenuAction)
    ensures a.ViewStatus? <==> StartsWith(data, FILTER_PREFIX)
    ensures a.ViewStatus? ==> data == FILTER_PREFIX + a.estado
  {
    if data == "MENU:LISTA" then ViewAll
    else if StartsWith(data, FILTER_PREFIX) then ViewStatus(data[|FILTER_PREFIX|..])
    else if data == "MENU:EXPORT_GC" then ExportContacts
    else if data == "MENU:VCARD" then ExportVcard
    else NoAction
  }

  /** A filter button dispatches to exactly its status, listed under the status with an "s". */
  lemma FilterButtonDispatch(estado: string)
    ensures MenuDispatch(FILTER_PREFIX + estado) == ViewStatus(estado)
  {
    var data := FILTER_PREFIX + estado;
    assert data[..|FILTER_PREFIX|] == FILTER_PREFIX;
    assert data[|FILTER_PREFIX|..] == estado;
  }

  /** The title a status listing is shown under. */
  function StatusTitle(estado: string): string {
    estado + "s"
  }

  const PAGE_PREFIX := "PAGE:"

  /**
   * `on_page_callback`: the page number after the first colon of the data; data without a colon
   * or with a non-number after it fails.
   */
  function PageOf(data: string): (r: Result<nat>)
    ensures r.Ok? ==> ':' in data && IsDigits(data[IndexOf(data, ':') + 1..])
  {
    if ':' !in data then Err("ValueError: not enough values to unpack")
    else
      var tail := data[IndexOf(data, ':') + 1..];
      if tail != [] && IsDigits(tail) then Ok(ParseNat(tail)) else Err("ValueError: invalid literal for int()")
  }

  /** The page buttons' data reads back as the page it was written for. */
  lemma PageOfButton(n: nat)
    ensures PageOf(PAGE_PREFIX + NatToString(n)) == Ok(n)
  {
    var data := PAGE_PREFIX + NatToString(n);
    assert data[4] == ':' && ':' !in data[..4];
    assert IndexOf(data, ':') == 4;
    assert data[5..] == NatToString(n);
    ParseNatToString(n);
  }

  // ---------------------------------------------------------------------------------------
  // The export commands (`cmd_gen_contacts`, `cmd_vcard`)
  // ---------------------------------------------------------------------------------------

  /** `os.path.basename`: what follows the last '/'. */
  function Basename(path: string): (r: string)
    ensures '/' !in r && |r| <= |path| && r == path[|path| - |r|..]
  {
    if path == [] || path[|path| - 1] == '/' then []
    else
      var r := Basename(path[..|path| - 1]);
      assert path[..|path| - 1][|path| - 1 - |r|..] == path[|path| - 1 - |r|..|path| - 1];
      r + [path[|path| - 1]]
  }

  /** The base name of a path is its last component. */
  lemma {:induction false} BasenameOfJoin(dir: string, name: string)
    requires '/' !in name
    ensures Basename(dir + "/" + name) == name
  {
    if name != [] {
      var p := dir + "/" + name;
      assert p[..|p| - 1] == dir + "/" + name[..|name| - 1];
      assert p[|p| - 1] == name[|name| - 1];
      BasenameOfJoin(dir, name[..|name| - 1]);
      assert name[..|name| - 1] + [name[|name| - 1]] == name;
    } else {
      assert (dir + "/" + name)[|dir + "/" + name| - 1] == '/';
    }
  }

  const CONTACTS_USAGE := "Uso: /gen_contacts <input_csv> <output_csv>"
  const VCARD_USAGE := "Uso: /vcard <Etiqueta> <input_csv> <output_vcf>"

  /** The export a command's arguments ask for. */
  datatype ExportArgs =
    | ExportUsage(text: string)
    | ContactsTo(input: string, output: string)
    | VcardTo(etiqueta: string, input: string, output: string)

  /** `cmd_gen_contacts`'s arguments: the input and output paths, or the usage line for fewer than two. */
  function ParseGenContactsArgs(args: seq<string>): (r: ExportArgs)
    ensures r.ExportUsage? <==> |args| < 2
    ensures r.ExportUsage? ==> r.text == CONTACTS_USAGE
    ensures r.ContactsTo? ==> r.input == args[0] && r.output == args[1]
  {
    if |args| < 2 then ExportUsage(CONTACTS_USAGE) else ContactsTo(args[0], args[1])
  }

  /** `cmd_vcard`'s arguments: the label and the two paths, or the usage line for fewer than three. */
  function ParseVcardArgs(args: seq<string>): (r: ExportArgs)
    ensures r.ExportUsage? <==> |args| < 3
    ensures r.ExportUsage? ==> r.text == VCARD_USAGE
    ensures r.VcardTo? ==> r.etiqueta == args[0] && r.input == args[1] && r.output == args[2]
  {
    if |args| < 3 then ExportUsage(VCARD_USAGE) else VcardTo(args[0], args[1], args[2])
  }

  /**
   * `cmd_gen_contacts` with the two files its arguments name: the Google rows of the input are
   * written to the output, which is then named in the reply; a failed read writes nothing.
   */
  method CmdGenContacts(input: Worksheet, output: Worksheet, args: seq<string>) returns (reply: Result<string>)
    modifies output
    ensures ParseGenContactsArgs(args).ExportUsage? ==>
      reply == Ok(CONTACTS_USAGE) && output.table == old(output.table) && output.writes == old(output.writes)
    ensures ParseGenContactsArgs(args).ContactsTo? ==>
      match ContactsOf(ReadListaOf(old(input.table)))
      case Ok(table) =>
        && reply == Ok("Archivo escrito: " + ParseGenContactsArgs(args).output)
        && output.table == table && output.writes == old(output.writes) + 1
      case Err(e) => reply == Err(e) && output.table == old(output.table) && output.writes == old(output.writes)
  {
    var parsed := ParseGenContactsArgs(args);
    if parsed.ExportUsage? {
      return Ok(CONTACTS_USAGE);
    }
    var table := GenContacts(input);
    if table.Err? {
      return Err(table.reason);
    }
    output.Overwrite(table.value);
    reply := Ok("Archivo escrito: " + parsed.output);
  }

  /**
   * `cmd_vcard` with the file its arguments name: the card lines of the input under the label,
   * and a reply naming the label and the output's base name.
   */
  method CmdVcard(input: Worksheet, args: seq<string>) returns (reply: Result<string>, vcf: seq<string>)
    ensures ParseVcardArgs(args).ExportUsage? ==> reply == Ok(VCARD_USAGE) && vcf == []
    ensures ParseVcardArgs(args).VcardTo? ==>
      var cards := VcardOf(input.table, args[0]);
      && (cards.Ok? ==> reply == Ok("Archivo escrito para " + args[0] + ": " + Basename(args[2])) && vcf == cards.value)
      && (cards.Err? ==> reply == Err(cards.reason) && vcf == [])
  {
    vcf := [];
    var parsed := ParseVcardArgs(args);
    if parsed.ExportUsage? {
      return Ok(VCARD_USAGE), [];
    }
    var lines := GenVcard(input, parsed.etiqueta);
    if lines.Err? {
      return Err(lines.reason), [];
    }
    vcf := lines.value;
    reply := Ok("Archivo escrito para " + parsed.etiqueta + ": " + Basename(parsed.output));
  }
}
