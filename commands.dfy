/**
 * The plain commands (bot/handlers/commands.py): the listings, sent twenty lines per message,
 * and the older claim `cmd_get_pendientes`, which reserves the first five pending rows.
 *
 * A message is modelled as its lines (the handler joins them with "\n"); the chat itself is not
 * modelled.
 */
module Commands {
  import opened Text
  import opened Config
  import opened Lista
  import opened SheetStore
  import opened UserData
  import opened Menu
  import opened Pagination
  import Seqs

  /** The number of lines per listing message. */
  const BLOCK: nat := 20

  // ---------------------------------------------------------------------------------------
  // Listings (`cmd_get_lista`, `_send_list_by_status`)
  // ---------------------------------------------------------------------------------------

  /** One listing line per row: "tel: nombre, apellido" of the padded row. */
  function ListLines(rows: seq<Row>): (lines: seq<string>)
    ensures |lines| == |rows| && forall k :: 0 <= k < |rows| ==> lines[k] == PersonaHead(rows[k])
  {
    seq(|rows|, k requires 0 <= k < |rows| => PersonaHead(rows[k]))
  }

  /** Counting from a multiple of the block size, the count is a multiple again exactly when a whole block was added. */
  lemma BlockFull(base: nat, n: nat)
    requires base % BLOCK == 0 && 0 < n <= BLOCK
    ensures (base + n) % BLOCK == 0 <==> n == BLOCK
  {
    var q := base / BLOCK;
    assert base + n == q * BLOCK + n;
    if n < BLOCK {
      assert (base + n) / BLOCK == q;
    }
  }

  /** The blocking loop: a line per row, a message every twentieth line and one for any remainder. */
  method SendBlocks(rows: seq<Row>) returns (messages: seq<seq<string>>)
    ensures messages == Chunks(ListLines(rows), BLOCK)
  {
    var lines := ListLines(rows);
    messages := [];
    var block: seq<string> := [];
    var base := 0;
    for i := 0 to |rows|
      invariant base + |block| == i && base % BLOCK == 0 && |block| < BLOCK
      invariant block == lines[base..i]
      invariant messages == Chunks(lines[..base], BLOCK)
    {
      Seqs.SliceSnoc(lines, base, i);
      block := block + [PersonaHead(rows[i])];
      BlockFull(base, |block|);
      if (i + 1) % BLOCK == 0 {
        ChunksConcat(lines[..base], block, BLOCK);
        Seqs.PrefixSlice(lines, base, i + 1);
        messages := messages + [block];
        base := i + 1;
        block := [];
      }
    }
    Seqs.PrefixSlice(lines, base, |lines|);
    assert lines[..|lines|] == lines;
    if block != [] {
      ChunksConcat(lines[..base], block, BLOCK);
      messages := messages + [block];
    }
  }

  /** Chunking a prefix of whole blocks, then the rest, is chunking the whole. */
  lemma {:induction false} ChunksConcat<T>(s: seq<T>, t: seq<T>, size: nat)
    requires size > 0 && |s| % size == 0
    ensures Chunks(s + t, size) == Chunks(s, size) + Chunks(t, size)
    decreases |s|
  {
    if s == [] {
      assert s + t == t;
    } else {
      var rest := s[size..];
      assert |rest| % size == 0 by {
        DivShift(|s|, size);
      }
      ChunksConcat(rest, t, size);
      ChunksHead(s, t, size);
      ChunksHead(s, [], size);
      assert s + [] == s;
    }
  }

  /** A sequence that starts with a whole block chunks into that block, then the chunks of the rest. */
  lemma ChunksHead<T>(s: seq<T>, t: seq<T>, size: nat)
    requires size > 0 && |s| >= size
    ensures Chunks(s + t, size) == [s[..size]] + Chunks(s[size..] + t, size)
  {
    var u := s + t;
    assert u[..size] == s[..size];
    assert u[size..] == s[size..] + t;
    if |u| == size {
      assert s[size..] + t == [];
      assert u[..size] == u;
    }
  }

  /**
   * `cmd_get_lista`: "La lista está vacía." for an empty store, otherwise the listing of every
   * row, twenty lines per message.
   */
  method CmdGetLista(ws: Worksheet) returns (messages: seq<seq<string>>)
    ensures var rows := ReadListaAny(ws.table);
      && (rows == [] ==> messages == [["La lista est\U{e1} vac\U{ed}a."]])
      && (rows != [] ==> messages == Chunks(ListLines(rows), BLOCK))
  {
    var rows := ReadListaAny(ws.table);
    if rows == [] {
      return [["La lista est\U{e1} vac\U{ed}a."]];
    }
    messages := SendBlocks(rows);
  }

  /**
   * `_send_list_by_status`: "No hay personas <titulo>." for no rows, otherwise an introduction
   * followed by the listing, twenty lines per message.
   */
  method SendListByStatus(rows: seq<Row>, titulo: string) returns (messages: seq<seq<string>>)
    ensures rows == [] ==> messages == [["No hay personas " + Lower(titulo) + "."]]
    ensures rows != [] ==>
      messages == [["Esta es la lista de personas " + Lower(titulo) + ":"]] + Chunks(ListLines(rows), BLOCK)
  {
    if rows == [] {
      return [["No hay personas " + Lower(titulo) + "."]];
    }
    var blocks := SendBlocks(rows);
    messages := [["Esta es la lista de personas " + Lower(titulo) + ":"]] + blocks;
  }

  /** `cmd_get_aceptados` and `cmd_get_rechazados`: the listing of the rows with that exact status. */
  method CmdGetByStatus(ws: Worksheet, estado: string, titulo: string) returns (messages: seq<seq<string>>)
    ensures var rows := FilterByStatus(ReadListaAny(ws.table), estado);
      && (rows == [] ==> messages == [["No hay personas " + Lower(titulo) + "."]])
      && (rows != [] ==>
            messages == [["Esta es la lista de personas " + Lower(titulo) + ":"]] + Chunks(ListLines(rows), BLOCK))
  {
    messages := SendListByStatus(FilterByStatus(ReadListaAny(ws.table), estado), titulo);
  }

  /**
   * The listing covers the rows exactly: its messages, in order, hold one line per row, in row
   * order; there are `ceil(n / 20)` of them, each of twenty lines except a non-empty last one.
   */
  lemma ListingCoversRows(rows: seq<Row>)
    ensures var ms := Chunks(ListLines(rows), BLOCK);
      && Flatten(ms) == ListLines(rows) && |Flatten(ms)| == |rows|
      && |ms| == (|rows| + BLOCK - 1) / BLOCK
      && (forall k :: 0 <= k < |ms| - 1 ==> |ms[k]| == BLOCK)
      && (ms != [] ==> 0 < |ms[|ms| - 1]| <= BLOCK)
  {
    ChunksFlatten(ListLines(rows), BLOCK);
    ChunksCount(ListLines(rows), BLOCK);
  }

  // ---------------------------------------------------------------------------------------
  // The older claim (`cmd_get_pendientes`)
  // ---------------------------------------------------------------------------------------

  /** The rows the older claim takes: the first `min(5, pending)` pending rows, in store order. */
  function LegacySelection(rows: seq<Row>): seq<int> {
    IndicesOf(Front(PendingPositions(rows)))
  }

  /** The legacy command's replies. */
  const NO_PENDIENTES := "No hay personas pendientes."
  const ASSIGNED_INTRO := "Estos son tus pendientes asignados:\n\n"

  /**
   * `cmd_get_pendientes`: with no pending row it writes and reserves nothing and says so;
   * otherwise it tags the first five pending rows for `who`, clears their notes, writes the whole
   * list once, remembers the tagged rows, and only them (the owner and the indices are left as
   * they were), and answers with one "tel: nombre, apellido" line per tagged row.
   */
  method CmdGetPendientes(ws: Worksheet, s: Session, who: string) returns (tagged: seq<Row>, reply: string)
    modifies ws, s`reservedRows
    ensures var rows := ReadListaAny(old(ws.table));
      var sel := LegacySelection(rows);
      && ValidSel(rows, sel)
      && (sel == [] ==> tagged == [] && ws.table == old(ws.table) && ws.writes == old(ws.writes)
                        && s.reservedRows == old(s.reservedRows) && reply == NO_PENDIENTES)
      && (sel != [] ==> && ws.table == [CSV_HEADERS] + ClaimRows(rows, sel, who)
                        && ws.writes == old(ws.writes) + 1
                        && tagged == ClaimedBatch(rows, sel, who) && s.reservedRows == tagged
                        && reply == ASSIGNED_INTRO + Join(ListLines(tagged), "\n"))
  {
    var allRows := ReadListaAny(ws.table);
    var positions := PendingPositionsOf(allRows);
    LegacySelectionValid(allRows);
    if positions == [] {
      return [], NO_PENDIENTES;
    }
    var sel := IndicesOf(Front(positions));
    var newRows, batch := TagSelected(allRows, sel, who);
    assert Padded(newRows);
    SetListaAny(ws, newRows);
    s.reservedRows := batch;
    tagged := batch;
    reply := ASSIGNED_INTRO + Join(ListLines(batch), "\n");
  }

  /**
   * The older claim's rows are pending, distinct and in store order, there are `min(5, pending)`
   * of them, none when nothing is pending, and no pending row before the last of them is left out.
   */
  lemma LegacySelectionValid(rows: seq<Row>)
    ensures var sel := LegacySelection(rows);
      var p := |PendingPositions(rows)|;
      && ValidSel(rows, sel)
      && |sel| == (if p < 5 then p else 5)
      && (sel == [] <==> forall i :: 0 <= i < |rows| ==> !IsPending(rows[i]))
      && (forall k, l :: 0 <= k < l < |sel| ==> sel[k] < sel[l])
      && (forall i :: 0 <= i < |rows| && IsPending(rows[i]) && i !in sel ==> forall k :: 0 <= k < |sel| ==> sel[k] < i)
  {
    var ps := PendingPositions(rows);
    var sel := LegacySelection(rows);
    SelectionSound(rows, [], [], 5);
    LegacyIsClaim(rows);
    if sel != [] {
      assert IsPending(rows[ps[0].index]);
    }
  }

  /**
   * The older claim is the menu's claim with no preview and a limit of five: both take the same
   * rows, in the same order.
   */
  lemma LegacyIsClaim(rows: seq<Row>)
    ensures LegacySelection(rows) == Selection(rows, [], [], 5)
  {
    var ps := PendingPositions(rows);
    var m := MaxItems(5, |ps|);
    assert ps[..0] == [] && ps[0..] == ps;
    ByQueueTakes(rows, ps, 0, m);
  }

  /** From the j-th queue entry on, the third phase takes the queue entries up to the batch size. */
  lemma {:induction false} ByQueueTakes(rows: seq<Row>, ps: seq<Position>, j: nat, m: nat)
    requires PositionsOk(rows, ps) && Increasing(ps) && j <= m <= |ps|
    ensures ByQueue(rows, IndicesOf(ps[..j]), ps[j..], m) == IndicesOf(ps[..m])
    decreases m - j
  {
    if j < m {
      var sel := IndicesOf(ps[..j]);
      var x := ps[j].index;
      assert x !in sel by {
        forall k | 0 <= k < |sel|
          ensures sel[k] != x
        {
          assert sel[k] == ps[k].index;
        }
      }
      assert Addable(rows, sel, x);
      assert sel + [x] == IndicesOf(ps[..j + 1]);
      assert ps[j..][1..] == ps[j + 1..];
      ByQueueTakes(rows, ps, j + 1, m);
    }
  }
}
