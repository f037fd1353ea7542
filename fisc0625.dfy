/**
 * The legacy vCard export for poll-station officials (Funcionalidades/fisc0625.py): every record
 * of the CSV, the first one included, becomes a five-line vCard 4.0 named "Fiscal <formato>
 * <Nombre>" (RFC 6350, section 6.2.1), or "Fiscal <formato> <n>" when the name cell is empty,
 * with the telephone as a `tel:` URI (RFC 6350, section 6.4.1; RFC 3966).
 *
 * The output file is opened before the loop and written line by line, so a record too short for
 * the cell a line needs leaves the lines written before it in the file and stops the export.
 */
module Fisc0625 {
  import opened Text
  import opened SheetStore
  import Seqs

  type Row = seq<string>

  /** `indices["Nombre"]` and `indices["Teléfono"]`. */
  const NOMBRE_COL: nat := 0
  const TELEFONO_COL: nat := 1

  /** What the output file holds when the export ends, and whether it ended on an IndexError. */
  datatype Output = Output(lines: seq<string>, failed: bool)

  /** The characters `re.sub(r'[\s-]', '', ...)` keeps: neither whitespace nor '-'. */
  predicate KeptInPhone(c: char) {
    !IsSpace(c) && c != '-'
  }

  /** The telephone with its whitespace and dashes removed, the other characters in order. */
  function Phone(tel: string): (r: string)
    ensures |r| <= |tel|
    ensures forall i :: 0 <= i < |r| ==> KeptInPhone(r[i])
  {
    Keep(tel, KeptInPhone)
  }

  /** Removing separators twice removes nothing more, and a number written without them is kept whole. */
  lemma PhoneIdempotent(tel: string)
    ensures Phone(Phone(tel)) == Phone(tel)
    ensures (forall i :: 0 <= i < |tel| ==> KeptInPhone(tel[i])) ==> Phone(tel) == tel
  {
    KeepAll(Phone(tel), KeptInPhone);
    if forall i :: 0 <= i < |tel| ==> KeptInPhone(tel[i]) {
      KeepAll(tel, KeptInPhone);
    }
  }

  /** Whether a record's name cell is empty, so that it takes the next number. */
  predicate Blank(row: Row)
    requires |row| > NOMBRE_COL
  {
    row[NOMBRE_COL] == ""
  }

  /** `conteo` after a record: one more for an empty name. */
  function Next(row: Row, conteo: nat): nat
    requires |row| > NOMBRE_COL
  {
    if Blank(row) then conteo + 1 else conteo
  }

  /** The FN line of a record whose number, if its name is empty, is n. */
  function FnLine(row: Row, formato: string, n: nat): string
    requires |row| > NOMBRE_COL
  {
    "FN:Fiscal " + formato + " " + (if Blank(row) then NatToString(n) else row[NOMBRE_COL])
  }

  function TelLine(row: Row): string
    requires |row| > TELEFONO_COL
  {
    "TEL;TYPE=CELL;VALUE=uri:tel:+" + Phone(row[TELEFONO_COL])
  }

  /** The card of a record read when `conteo` empty names had been seen. */
  function CardFor(row: Row, formato: string, conteo: nat): (lines: seq<string>)
    requires |row| > TELEFONO_COL
    ensures |lines| == 5 && lines[0] == "BEGIN:VCARD" && lines[1] == "VERSION:4.0" && lines[4] == "END:VCARD"
  {
    ["BEGIN:VCARD", "VERSION:4.0", FnLine(row, formato, Next(row, conteo)), TelLine(row), "END:VCARD"]
  }

  /** Every record has a name cell and a telephone cell. */
  predicate Complete(rows: seq<Row>) {
    forall k :: 0 <= k < |rows| ==> |rows[k]| > TELEFONO_COL
  }

  /**
   * The lines written for one record: the whole card, or, for a record lacking a cell, the lines
   * written before that cell was read.
   */
  function RecordLines(row: Row, formato: string, conteo: nat): (lines: seq<string>)
    ensures |row| > TELEFONO_COL ==> lines == CardFor(row, formato, conteo)
  {
    if |row| == 0 then ["BEGIN:VCARD", "VERSION:4.0"]
    else if |row| == 1 then ["BEGIN:VCARD", "VERSION:4.0", FnLine(row, formato, Next(row, conteo))]
    else CardFor(row, formato, conteo)
  }

  /** A record lacking a cell leaves the lines its card would have had before the line needing that cell. */
  lemma ShortRecordIsCardStart(row: Row, formato: string, conteo: nat)
    requires |row| <= TELEFONO_COL
    ensures RecordLines(row, formato, conteo) == CardFor(row + seq(2 - |row|, _ => ""), formato, conteo)[..2 + |row|]
  {
    var padded := row + seq(2 - |row|, _ => "");
    if |row| == 1 {
      assert padded[NOMBRE_COL] == row[NOMBRE_COL];
    }
  }

  /** A way of writing one record's lines, given how many empty names were counted before it. */
  type Writer = (Row, nat) -> seq<string>

  /**
   * The loop of `genVcard`, for any way of writing one record: each record's lines in order, the
   * count of empty names carried from each record to the next, and, at the first record lacking a
   * cell, that record's lines and then the error.
   */
  function Export(rows: seq<Row>, write: Writer, conteo: nat): Output {
    if rows == [] then Output([], false)
    else if |rows[0]| <= TELEFONO_COL then Output(write(rows[0], conteo), true)
    else
      var rest := Export(rows[1..], write, Next(rows[0], conteo));
      Output(write(rows[0], conteo) + rest.lines, rest.failed)
  }

  /** A writer that writes five lines for every complete record. */
  ghost predicate FiveLines(write: Writer) {
    forall row: Row, n: nat :: |row| > TELEFONO_COL ==> |write(row, n)| == 5
  }

  /** How `genVcard` writes one record. */
  function RecordWriter(formato: string): (write: Writer)
    ensures FiveLines(write)
    ensures forall row: Row, n: nat :: |row| > TELEFONO_COL ==> write(row, n) == CardFor(row, formato, n)
  {
    (row: Row, n: nat) => RecordLines(row, formato, n)
  }

  /**
   * The file `genVcard` leaves, from the records still to read and the count so far: a card per
   * record, or, at the first record lacking a cell, the lines of its card written before the
   * missing cell was read.
   */
  function Written(rows: seq<Row>, formato: string, conteo: nat): Output {
    Export(rows, RecordWriter(formato), conteo)
  }

  /** The export ends on an error exactly when some record lacks a cell. */
  lemma {:induction false} ExportFails(rows: seq<Row>, write: Writer, conteo: nat)
    ensures Export(rows, write, conteo).failed <==> !Complete(rows)
  {
    if rows != [] && |rows[0]| > TELEFONO_COL {
      ExportFails(rows[1..], write, Next(rows[0], conteo));
      assert forall k :: 1 <= k < |rows| ==> rows[k] == rows[1..][k - 1];
    }
  }

  /** A finished export holds five lines per record. */
  lemma {:induction false} ExportLength(rows: seq<Row>, write: Writer, conteo: nat)
    requires Complete(rows) && FiveLines(write)
    ensures |Export(rows, write, conteo).lines| == 5 * |rows|
  {
    if rows != [] {
      CompleteSplit(rows, 1);
      ExportLength(rows[1..], write, Next(rows[0], conteo));
    }
  }

  /** The number of records with an empty name. */
  function Blanks(rows: seq<Row>): nat {
    if rows == [] then 0 else (if |rows[0]| > NOMBRE_COL && Blank(rows[0]) then 1 else 0) + Blanks(rows[1..])
  }

  /**
   * The k-th card, the one at lines 5k to 5k+5, is record k's, numbered from the empty names of
   * the records before it: there is no header record to skip.
   */
  lemma {:induction false} CardAt(rows: seq<Row>, write: Writer, conteo: nat, k: nat)
    requires Complete(rows) && FiveLines(write) && k < |rows|
    ensures var lines := Export(rows, write, conteo).lines;
      5 * k + 5 <= |lines| && lines[5 * k..5 * k + 5] == write(rows[k], conteo + Blanks(rows[..k]))
  {
    if k == 0 {
      CardAtFirst(rows, write, conteo);
    } else {
      CompleteSplit(rows, 1);
      CardAt(rows[1..], write, Next(rows[0], conteo), k - 1);
      CardAtNext(rows, write, conteo, k);
    }
  }

  /** The first card is the first record's, numbered from the count so far. */
  lemma CardAtFirst(rows: seq<Row>, write: Writer, conteo: nat)
    requires Complete(rows) && FiveLines(write) && rows != []
    ensures var lines := Export(rows, write, conteo).lines;
      5 <= |lines| && lines[0..5] == write(rows[0], conteo + Blanks(rows[..0]))
  {
    var lines := Export(rows, write, conteo).lines;
    var card := write(rows[0], conteo);
    ExportCons(rows, write, conteo);
    assert |card| == 5;
    assert lines[0..5] == card;
    assert rows[..0] == [];
  }

  /** Card k of the records is card k - 1 of the records after the first, which start counting after it. */
  lemma CardAtNext(rows: seq<Row>, write: Writer, conteo: nat, k: nat)
    requires 1 <= k < |rows| && |rows[0]| > TELEFONO_COL && |write(rows[0], conteo)| == 5
    requires var rest := Export(rows[1..], write, Next(rows[0], conteo)).lines;
      5 * (k - 1) + 5 <= |rest|
      && rest[5 * (k - 1)..5 * (k - 1) + 5] == write(rows[1..][k - 1], Next(rows[0], conteo) + Blanks(rows[1..][..k - 1]))
    ensures var lines := Export(rows, write, conteo).lines;
      5 * k + 5 <= |lines| && lines[5 * k..5 * k + 5] == write(rows[k], conteo + Blanks(rows[..k]))
  {
    var next := Next(rows[0], conteo);
    ExportCons(rows, write, conteo);
    BlanksTake(rows, k);
    assert next + Blanks(rows[1..][..k - 1]) == conteo + Blanks(rows[..k]);
    assert rows[1..][k - 1] == rows[k];
    CardAfter(Export(rows, write, conteo).lines, write(rows[0], conteo), Export(rows[1..], write, next).lines,
              k, write(rows[k], conteo + Blanks(rows[..k])));
  }

  /** The blanks among the first k records: the first record's, then those among the k - 1 after it. */
  lemma BlanksTake(rows: seq<Row>, k: nat)
    requires 1 <= k <= |rows| && |rows[0]| > NOMBRE_COL
    ensures Blanks(rows[..k]) == (if Blank(rows[0]) then 1 else 0) + Blanks(rows[1..][..k - 1])
  {
    assert rows[..k][0] == rows[0] && rows[..k][1..] == rows[1..][..k - 1];
  }

  /** Both parts of a split of complete records are complete. */
  lemma CompleteSplit(rows: seq<Row>, k: nat)
    requires Complete(rows) && k <= |rows|
    ensures Complete(rows[..k]) && Complete(rows[k..])
  {
    assert forall j :: 0 <= j < k ==> rows[..k][j] == rows[j];
    assert forall j :: 0 <= j < |rows| - k ==> rows[k..][j] == rows[k + j];
  }

  /** Card k of lines that start with a card is card k - 1 of the lines after it. */
  lemma CardAfter(lines: seq<string>, first: seq<string>, rest: seq<string>, k: nat, card: seq<string>)
    requires lines == first + rest && |first| == 5 && 1 <= k
    requires 5 * (k - 1) + 5 <= |rest| && rest[5 * (k - 1)..5 * (k - 1) + 5] == card
    ensures 5 * k + 5 <= |lines| && lines[5 * k..5 * k + 5] == card
  {
    assert lines[5 * k..5 * k + 5] == rest[5 * (k - 1)..5 * (k - 1) + 5];
  }

  /** The lines written for a complete first record, then the rest's, counted after it. */
  lemma ExportCons(rows: seq<Row>, write: Writer, conteo: nat)
    requires rows != [] && |rows[0]| > TELEFONO_COL
    ensures Export(rows, write, conteo).lines
            == write(rows[0], conteo) + Export(rows[1..], write, Next(rows[0], conteo)).lines
  {
  }

  /**
   * Empty names are numbered 1, 2, ... in order: the j-th record with an empty name shows j,
   * and the last number used is the count of empty names.
   */
  lemma BlankNumbering(rows: seq<Row>, formato: string, k: nat)
    requires Complete(rows) && k < |rows| && Blank(rows[k])
    ensures var lines := Written(rows, formato, 0).lines;
      5 * k + 2 < |lines| && lines[5 * k + 2] == "FN:Fiscal " + formato + " " + NatToString(Blanks(rows[..k + 1]))
    ensures 1 <= Blanks(rows[..k + 1]) <= Blanks(rows)
  {
    WrittenCard(rows, formato, k);
    CardLine(Written(rows, formato, 0).lines, k, CardFor(rows[k], formato, Blanks(rows[..k])));
    BlanksPrefix(rows, k);
  }

  /** Card k of a complete table is the card of record k, numbered after the empty names before it. */
  lemma WrittenCard(rows: seq<Row>, formato: string, k: nat)
    requires Complete(rows) && k < |rows|
    ensures var lines := Written(rows, formato, 0).lines;
      5 * k + 5 <= |lines| && lines[5 * k..5 * k + 5] == CardFor(rows[k], formato, Blanks(rows[..k]))
  {
    CardAt(rows, RecordWriter(formato), 0, k);
    WriterCard(formato, rows[k], Blanks(rows[..k]));
  }

  /** `genVcard` writes a complete record as its card. */
  lemma WriterCard(formato: string, row: Row, n: nat)
    requires |row| > TELEFONO_COL
    ensures RecordWriter(formato)(row, n) == CardFor(row, formato, n)
  {
  }

  /** The third line of card k is the third line of that card. */
  lemma CardLine(lines: seq<string>, k: nat, card: seq<string>)
    requires 5 * k + 5 <= |lines| && |card| == 5
    requires lines[5 * k..5 * k + 5] == card
    ensures lines[5 * k + 2] == card[2]
  {
    assert lines[5 * k + 2] == lines[5 * k..5 * k + 5][2];
  }

  /** The empty names up to and including an empty-named record k: one more than before it, at most all of them. */
  lemma BlanksPrefix(rows: seq<Row>, k: nat)
    requires k < |rows| && |rows[k]| > NOMBRE_COL && Blank(rows[k])
    ensures Blanks(rows[..k + 1]) == Blanks(rows[..k]) + 1 <= Blanks(rows)
  {
    BlanksSplit(rows[..k], [rows[k]]);
    Seqs.TakeSnoc(rows, k);
    assert Blanks([rows[k]]) == 1 by {
      assert [rows[k]][1..] == [];
    }
    BlanksSplit(rows[..k + 1], rows[k + 1..]);
    Seqs.TakeDrop(rows, k + 1);
  }

  /** Counting empty names is additive over a split of the records. */
  lemma {:induction false} BlanksSplit(a: seq<Row>, b: seq<Row>)
    ensures Blanks(a + b) == Blanks(a) + Blanks(b)
  {
    if a == [] {
      assert a + b == b;
    } else {
      assert (a + b)[1..] == a[1..] + b;
      BlanksSplit(a[1..], b);
      assert (a + b)[0] == a[0];
    }
  }

  /**
   * One record in the loop, from the lines written so far and the export of the records left:
   * a record lacking a cell ends the export after its lines, and otherwise the records after
   * it, counted from the new count, write the rest.
   */
  lemma ExportStep(rows: seq<Row>, i: nat, write: Writer, conteo: nat, lines: seq<string>, whole: Output)
    requires i < |rows|
    requires lines + Export(rows[i..], write, conteo).lines == whole.lines
    requires Export(rows[i..], write, conteo).failed == whole.failed
    ensures |rows[i]| <= TELEFONO_COL ==> Output(lines + write(rows[i], conteo), true) == whole
    ensures |rows[i]| > TELEFONO_COL ==>
      var rest := Export(rows[i + 1..], write, Next(rows[i], conteo));
      (lines + write(rows[i], conteo)) + rest.lines == whole.lines && rest.failed == whole.failed
  {
    assert rows[i..][0] == rows[i] && rows[i..][1..] == rows[i + 1..];
    if |rows[i]| > TELEFONO_COL {
      var rest := Export(rows[i + 1..], write, Next(rows[i], conteo)).lines;
      assert lines + (write(rows[i], conteo) + rest) == (lines + write(rows[i], conteo)) + rest;
    }
  }

  /** `genVcard`'s writer writes a record's lines. */
  lemma WriterLines(formato: string, row: Row, n: nat)
    ensures RecordWriter(formato)(row, n) == RecordLines(row, formato, n)
  {
  }

  /** The writes for one record, line by line, stopping at the first cell it lacks. */
  method WriteRecord(row: Row, formato: string, conteo: nat) returns (lines: seq<string>, next: nat)
    ensures lines == RecordLines(row, formato, conteo)
    ensures |row| > NOMBRE_COL ==> next == Next(row, conteo)
  {
    next := conteo;
    lines := ["BEGIN:VCARD"];
    lines := lines + ["VERSION:4.0"];
    if |row| <= NOMBRE_COL {
      return;
    }
    var fn: string;
    if row[NOMBRE_COL] == "" {
      next := next + 1;
      fn := "FN:Fiscal " + formato + " " + NatToString(next);
    } else {
      fn := "FN:Fiscal " + formato + " " + row[NOMBRE_COL];
    }
    lines := lines + [fn];
    if |row| <= TELEFONO_COL {
      return;
    }
    lines := lines + ["TEL;TYPE=CELL;VALUE=uri:tel:+" + Phone(row[TELEFONO_COL])];
    lines := lines + ["END:VCARD"];
  }

  /**
   * `genVcard`: the file holds a card per record of the input, in order, each empty name
   * taking the next number; a record lacking a cell ends the file after the lines written for it.
   */
  method GenVcard(origen: Worksheet, formato: string) returns (out: Output)
    ensures out == Written(origen.table, formato, 0)
  {
    var rows := origen.table;
    var lines: seq<string> := [];
    var conteo: nat := 0;
    assert rows[0..] == rows;
    for i := 0 to |rows|
      invariant lines + Written(rows[i..], formato, conteo).lines == Written(rows, formato, 0).lines
      invariant Written(rows[i..], formato, conteo).failed == Written(rows, formato, 0).failed
    {
      var card, next := WriteRecord(rows[i], formato, conteo);
      WriterLines(formato, rows[i], conteo);
      ExportStep(rows, i, RecordWriter(formato), conteo, lines, Written(rows, formato, 0));
      if |rows[i]| <= TELEFONO_COL {
        return Output(lines + card, true);
      }
      lines := lines + card;
      conteo := next;
    }
    assert rows[|rows|..] == [];
    assert lines + [] == lines;
    return Output(lines, false);
  }
}
