/**
 * Exports of the roster (bot/services/exports.py): the Google Contacts table and vCard 4.0 cards
 * (RFC 6350: FN in section 6.2.1, TEL as a `tel:` URI in section 6.4.1, URI syntax from RFC 3966).
 * Files are left out: each export returns the rows or lines it would write.
 */
module Exports {
  import opened Text
  import opened Config
  import opened Lista
  import opened SheetStore

  /** The Google Contacts row for a roster row: Given, Family, Phone, Labels (the Estado), Nickname (the DNI), Notes. */
  function GoogleRow(row: Row): (g: Row)
    ensures |g| == |GOOGLE_HEADERS|
  {
    var p := Pad6(row);
    [p[NOMBRE], p[APELLIDO], p[TELEFONO], p[ESTADO], p[DNI], p[OBSERVACION]]
  }

  /** Reading a roster row back out of its Google Contacts row. */
  function RosterRow(g: Row): Row
    requires |g| == |GOOGLE_HEADERS|
  {
    [g[0], g[1], g[2], g[4], g[3], g[5]]
  }

  /** No roster cell is lost or moved to another roster column by the Google mapping. */
  lemma GoogleRowInverse(row: Row)
    ensures RosterRow(GoogleRow(row)) == Pad6(row)
  {
  }

  /** `gen_contacts_any`: the Google header, then one mapped row per roster row, in order. */
  method GenContactsAny(ws: Worksheet) returns (out: seq<Row>)
    ensures |out| == |ReadListaAny(ws.table)| + 1 && out[0] == GOOGLE_HEADERS
    ensures forall k :: 0 <= k < |ReadListaAny(ws.table)| ==> out[k + 1] == GoogleRow(ReadListaAny(ws.table)[k])
  {
    var body := ReadListaAny(ws.table);
    out := [GOOGLE_HEADERS];
    for i := 0 to |body|
      invariant |out| == i + 1 && out[0] == GOOGLE_HEADERS
      invariant forall k :: 0 <= k < i ==> out[k + 1] == GoogleRow(body[k])
    {
      out := out + [GoogleRow(body[i])];
    }
  }

  /** The characters a `tel:` URI keeps: digits and '+' (`re.sub(r"[^\d+]", "", ...)`). */
  predicate IsTelChar(c: char) {
    IsDigit(c) || c == '+'
  }

  function TelUri(tel: string): (r: string)
    ensures |r| <= |tel|
    ensures forall i :: 0 <= i < |r| ==> IsTelChar(r[i])
    ensures forall c :: c in r <==> c in tel && IsTelChar(c)
  {
    Keep(tel, IsTelChar)
  }

  /** A number already written with digits and '+' only goes into the URI unchanged. */
  lemma TelUriKeepsDialable(tel: string)
    requires forall i :: 0 <= i < |tel| ==> IsTelChar(tel[i])
    ensures TelUri(tel) == tel
  {
    KeepAll(tel, IsTelChar);
  }

  /** One card: exactly BEGIN, VERSION:4.0, FN, TEL, END. */
  function Card(display: string, tel: string): (lines: seq<string>)
    ensures |lines| == 5 && lines[0] == "BEGIN:VCARD" && lines[1] == "VERSION:4.0" && lines[4] == "END:VCARD"
    ensures lines[2] == "FN:" + display && lines[3] == "TEL;TYPE=CELL;VALUE=uri:tel:" + TelUri(tel)
  {
    ["BEGIN:VCARD", "VERSION:4.0", "FN:" + display, "TEL;TYPE=CELL;VALUE=uri:tel:" + TelUri(tel), "END:VCARD"]
  }

  /**
   * How a card is named from the trimmed Nombre and the card's number among the emitted ones:
   * the roster export writes "Fiscal <etiqueta> <nombre>" (the number for a blank name), the
   * batch sent to an operator writes the name itself ("Pendiente <number>" for a blank name).
   */
  datatype Namer = Fiscal(etiqueta: string) | Reserved

  function CardDisplay(name: Namer, nombre: string, n: nat): string {
    match name
    case Fiscal(etiqueta) =>
      if nombre != "" then "Fiscal " + etiqueta + " " + nombre else "Fiscal " + etiqueta + " " + NatToString(n)
    case Reserved =>
      if nombre != "" then nombre else "Pendiente " + NatToString(n)
  }

  function CardPhone(row: Row): string { Trim(Pad6(row)[TELEFONO]) }
  function CardName(row: Row): string { Trim(Pad6(row)[NOMBRE]) }

  predicate HasPhone(row: Row) { CardPhone(row) != "" }

  /** The card of a row with a phone, numbered n. */
  function RowCard(name: Namer, row: Row, n: nat): (lines: seq<string>)
    ensures |lines| == 5
  {
    Card(CardDisplay(name, CardName(row), n), CardPhone(row))
  }

  /** A way of turning a row and its card number into the card's lines. */
  type CardMaker = (Row, nat) -> seq<string>

  function MakerOf(name: Namer): (make: CardMaker)
    ensures forall row, n :: make(row, n) == RowCard(name, row, n)
  {
    (row: Row, n: nat) => RowCard(name, row, n)
  }

  /** Every card the maker writes is five lines long. */
  ghost predicate FiveLines(make: CardMaker) {
    forall row, n :: |make(row, n)| == 5
  }

  lemma MakerOfFiveLines(name: Namer)
    ensures FiveLines(MakerOf(name))
  {
    forall row, n
      ensures |MakerOf(name)(row, n)| == 5
    {
      assert MakerOf(name)(row, n) == RowCard(name, row, n);
    }
  }

  /** The rows that get a card: those whose trimmed phone is not blank, in order. */
  function WithPhone(rows: seq<Row>): (r: seq<Row>)
    ensures |r| <= |rows|
  {
    if rows == [] then []
    else (if HasPhone(rows[0]) then [rows[0]] else []) + WithPhone(rows[1..])
  }

  /** The card lines for rows, `count` cards having been written before them. */
  function Cards(rows: seq<Row>, make: CardMaker, count: nat): seq<string> {
    if rows == [] then []
    else if !HasPhone(rows[0]) then Cards(rows[1..], make, count)
    else make(rows[0], count + 1) + Cards(rows[1..], make, count + 1)
  }

  /** One five-line card per row with a phone. */
  lemma {:induction false} CardsLength(rows: seq<Row>, make: CardMaker, count: nat)
    requires FiveLines(make)
    ensures |Cards(rows, make, count)| == 5 * |WithPhone(rows)|
  {
    if rows != [] {
      CardsLength(rows[1..], make, if HasPhone(rows[0]) then count + 1 else count);
    }
  }

  /** The cards of rows that all have a phone, one per row, numbered from count + 1. */
  function CardList(es: seq<Row>, make: CardMaker, count: nat): (cs: seq<seq<string>>)
    ensures |cs| == |es|
  {
    if es == [] then [] else [make(es[0], count + 1)] + CardList(es[1..], make, count + 1)
  }

  /** Card i of the list is the card of row i, numbered count + i + 1. */
  lemma {:induction false} CardListAt(es: seq<Row>, make: CardMaker, count: nat, i: nat)
    requires i < |es|
    ensures CardList(es, make, count)[i] == make(es[i], count + i + 1)
  {
    if i > 0 {
      CardListAt(es[1..], make, count + 1, i - 1);
      assert es[1..][i - 1] == es[i];
    }
  }

  /** The lines of a list of cards, one after the other. */
  function Concat(cs: seq<seq<string>>): (lines: seq<string>) {
    if cs == [] then [] else cs[0] + Concat(cs[1..])
  }

  /** Skipping the rows without a phone first and numbering afterwards gives the same cards. */
  lemma {:induction false} CardsFiltered(rows: seq<Row>, make: CardMaker, count: nat)
    ensures Cards(rows, make, count) == Concat(CardList(WithPhone(rows), make, count))
  {
    if rows != [] {
      var w := WithPhone(rows[1..]);
      if HasPhone(rows[0]) {
        CardsFiltered(rows[1..], make, count + 1);
        assert WithPhone(rows) == [rows[0]] + w;
        assert ([rows[0]] + w)[1..] == w;
      } else {
        CardsFiltered(rows[1..], make, count);
        assert WithPhone(rows) == w;
      }
    }
  }

  /** Block k of five lines of a list of five-line cards is card k. */
  lemma {:induction false} ConcatBlock(cs: seq<seq<string>>, k: nat)
    requires k < |cs|
    requires forall i :: 0 <= i < |cs| ==> |cs[i]| == 5
    ensures 5 * k + 5 <= |Concat(cs)|
    ensures Concat(cs)[5 * k .. 5 * k + 5] == cs[k]
  {
    ConcatLength(cs[1..]);
    if k > 0 {
      ConcatBlock(cs[1..], k - 1);
    }
    BlockOfConcat(cs[0], Concat(cs[1..]), k);
  }

  lemma {:induction false} ConcatLength(cs: seq<seq<string>>)
    requires forall i :: 0 <= i < |cs| ==> |cs[i]| == 5
    ensures |Concat(cs)| == 5 * |cs|
  {
    if cs != [] {
      ConcatLength(cs[1..]);
    }
  }

  /** Block k of five lines after a first block of five is block k - 1 of the rest. */
  lemma BlockOfConcat(c: seq<string>, rest: seq<string>, k: nat)
    requires |c| == 5 && 5 * k + 5 <= |c| + |rest|
    ensures 5 * k + 5 <= |c + rest|
    ensures k == 0 ==> (c + rest)[5 * k .. 5 * k + 5] == c
    ensures k > 0 ==> (c + rest)[5 * k .. 5 * k + 5] == rest[5 * (k - 1) .. 5 * (k - 1) + 5]
  {
  }

  /**
   * The cards, block by block: the k-th card is the one for the k-th row with a phone, numbered
   * after the `count` cards written before.
   */
  lemma CardsByEmitted(rows: seq<Row>, make: CardMaker, count: nat, k: nat)
    requires FiveLines(make)
    requires k < |WithPhone(rows)|
    ensures 5 * k + 5 <= |Cards(rows, make, count)|
    ensures Cards(rows, make, count)[5 * k .. 5 * k + 5] == make(WithPhone(rows)[k], count + k + 1)
  {
    var cs := CardList(WithPhone(rows), make, count);
    CardsFiltered(rows, make, count);
    forall i | 0 <= i < |cs|
      ensures |cs[i]| == 5
    {
      CardListAt(WithPhone(rows), make, count, i);
    }
    ConcatBlock(cs, k);
    CardListAt(WithPhone(rows), make, count, k);
  }

  /** The card-writing loop shared by the exports: skips blank phones and numbers the cards it writes. */
  method WriteCards(rows: seq<Row>, name: Namer) returns (lines: seq<string>)
    ensures lines == Cards(rows, MakerOf(name), 0)
  {
    var make := MakerOf(name);
    lines := [];
    var count := 0;
    for i := 0 to |rows|
      invariant lines + Cards(rows[i..], make, count) == Cards(rows, make, 0)
    {
      assert rows[i..][0] == rows[i] && rows[i..][1..] == rows[i + 1..];
      var nombre := CardName(rows[i]);
      var telefono := CardPhone(rows[i]);
      if telefono == "" {
        assert Cards(rows[i..], make, count) == Cards(rows[i + 1..], make, count);
        continue;
      }
      var card := Card(CardDisplay(name, nombre, count + 1), telefono);
      assert card == make(rows[i], count + 1);
      assert Cards(rows[i..], make, count) == card + Cards(rows[i + 1..], make, count + 1);
      count := count + 1;
      lines := lines + card;
    }
    assert rows[|rows|..] == [];
  }

  /** `gen_vcard_from_rows` */
  method GenVcardFromRows(rows: seq<Row>, etiqueta: string) returns (lines: seq<string>)
    ensures lines == Cards(rows, MakerOf(Fiscal(etiqueta)), 0)
  {
    lines := WriteCards(rows, Fiscal(etiqueta));
  }

  /** `gen_vcard_any`: the cards of the whole roster. */
  method GenVcardAny(ws: Worksheet, etiqueta: string) returns (lines: seq<string>)
    ensures lines == Cards(ReadListaAny(ws.table), MakerOf(Fiscal(etiqueta)), 0)
  {
    lines := GenVcardFromRows(ReadListaAny(ws.table), etiqueta);
  }
}
