/**
 * The status editor (bot/handlers/edit.py, lines 146-364): the paged list of rows with one
 * button per row, the status change and the "Contactar Luego" note that commit to the store and
 * refresh the list, and the vCard of the rows the operator is working on. Messages and keyboards
 * are left out; what a screen shows is returned as a value.
 */
module Edit {
  import opened Wrappers
  import opened Text
  import opened Config
  import opened Seqs
  import opened Lista
  import opened SheetStore
  import opened UserData
  import opened Pagination
  import opened Exports
  import opened Reservation

  /**
   * One listed row: the index its button carries into the rows on screen (the store body in the
   * list editor, the claimed batch in the pendientes editor), and its formatted line.
   */
  datatype Entry = Entry(index: nat, line: string)

  /** What `show_editable_list` shows: nothing to edit, or one page with its navigation. */
  datatype PageView =
    | NothingToEdit
    | Page(title: string, page: nat, pageCount: nat, entries: seq<Entry>, hasPrevious: bool, hasNext: bool)

  /** `max(0, min(page, count - 1))` */
  function ClampPage(page: int, count: nat): (p: nat)
    requires count > 0
    ensures p < count
    ensures 0 <= page < count ==> p == page
  {
    if page <= 0 then 0 else if page < count then page else count - 1
  }

  /** The line a row is listed with: `_format_persona` of the padded row. */
  function PersonaLine(row: Row): string {
    FormatPersona(Pad6(row))
  }

  /** The entries of a page whose first row has index `start`, each row written by `line`. */
  function PageEntries(chunk: seq<Row>, start: nat, line: Row -> string): (es: seq<Entry>)
    ensures |es| == |chunk|
  {
    seq(|chunk|, i requires 0 <= i < |chunk| => Entry(start + i, line(chunk[i])))
  }

  /** A page size the session stored, or the reader's default. */
  function SizeOr(size: Option<int>, default: int): int {
    if size.Some? then size.value else default
  }

  /**
   * What `show_editable_list` shows: nothing for no rows; else the requested page clamped into
   * the chunks, with a button per row of it numbered by its index in the rows.
   */
  function EditView(rows: seq<Row>, title: string, page: int, pageSize: nat): (view: PageView)
    requires pageSize > 0
    ensures view.NothingToEdit? <==> rows == []
    ensures view.Page? ==> view.page < view.pageCount && view.title == title
                           && (0 <= page < view.pageCount ==> view.page == page)
  {
    if rows == [] then NothingToEdit
    else
      var pages := Chunks(rows, pageSize);
      var p := ClampPage(page, |pages|);
      Page(title, p, |pages|, PageEntries(pages[p], p * pageSize, PersonaLine), p > 0, p < |pages| - 1)
  }

  /**
   * `show_editable_list`. An empty list shows nothing and leaves the session alone. Otherwise the
   * page is clamped into the chunks, remembered with the page size, and each row of that chunk is
   * listed with its index `page * pageSize + i` into the rows shown.
   */
  method ShowEditableList(s: Session, rows: seq<Row>, title: string, page: int, pageSize: nat) returns (view: PageView)
    requires pageSize > 0
    modifies s`editPageSize, s`editPage
    ensures view == EditView(rows, title, page, pageSize)
    ensures rows == [] ==> unchanged(s)
    ensures rows != [] ==> s.editPageSize == Some(pageSize) && s.editPage == view.page
  {
    if |rows| == 0 {
      return NothingToEdit;
    }
    s.editPageSize := Some(pageSize);
    var pages := Chunks(rows, pageSize);
    var p := ClampPage(page, |pages|);
    s.editPage := p;
    var entries := ListPage(pages[p], p * pageSize, PersonaLine);
    return Page(title, p, |pages|, entries, p > 0, p < |pages| - 1);
  }

  /** The listing loop of `show_editable_list`: one line per row of the page, numbered from `start`. */
  method ListPage(chunk: seq<Row>, start: nat, line: Row -> string) returns (entries: seq<Entry>)
    ensures entries == PageEntries(chunk, start, line)
  {
    entries := [];
    for i := 0 to |chunk|
      invariant |entries| == i
      invariant forall k :: 0 <= k < i ==> entries[k] == Entry(start + k, line(chunk[k]))
    {
      var linea := line(chunk[i]);
      entries := entries + [Entry(start + i, linea)];
    }
  }

  /**
   * The buttons of a shown page point at the rows they list: entry k carries index
   * page * pageSize + k, inside the list, and shows that row; there are ceil(n / pageSize) pages.
   */
  lemma ShownEntriesAreRows(rows: seq<Row>, page: int, pageSize: nat)
    requires rows != [] && pageSize > 0
    ensures var pages := Chunks(rows, pageSize);
      var p := ClampPage(page, |pages|);
      var es := PageEntries(pages[p], p * pageSize, PersonaLine);
      && |pages| == (|rows| + pageSize - 1) / pageSize
      && forall k :: 0 <= k < |es| ==>
           es[k].index == p * pageSize + k && es[k].index < |rows| && es[k].line == PersonaLine(rows[es[k].index])
  {
    var pages := Chunks(rows, pageSize);
    var p := ClampPage(page, |pages|);
    ChunksCount(rows, pageSize);
    forall k | 0 <= k < |pages[p]|
      ensures p * pageSize + k < |rows| && pages[p][k] == rows[p * pageSize + k]
    {
      ChunkElement(rows, pageSize, p, k);
    }
  }

  /** The page kept after a commit: reset to the last page when past it (`max(1, ceil(n / size))` pages). */
  function CommitPage(page: int, n: nat, size: nat): (r: int)
    requires size > 0
  {
    var total := if (n + size - 1) / size < 1 then 1 else (n + size - 1) / size;
    if page >= total then total - 1 else page
  }

  /**
   * After a commit the page is inside [0, max(1, ceil(n / size)) - 1] when it was not negative,
   * an in-range page is kept, and on a non-empty list the editor shows that page without a
   * second clamp.
   */
  lemma CommitPageInRange(page: int, rows: seq<Row>, size: nat)
    requires size > 0
    ensures var total := if (|rows| + size - 1) / size < 1 then 1 else (|rows| + size - 1) / size;
      var r := CommitPage(page, |rows|, size);
      && r <= total - 1
      && (0 <= page ==> 0 <= r)
      && (page < total ==> r == page)
      && (rows != [] && 0 <= page ==> ClampPage(r, |Chunks(rows, size)|) == r)
  {
    ChunksCount(rows, size);
  }

  /** The rows a refresh shows: the whole store body for the "list" editor, else the still-active batch. */
  function RefreshedRows(rows: seq<Row>, source: string, reserved: seq<Row>, indices: seq<int>, owner: string): seq<Row> {
    if source == "list" then rows else ActiveRowsOf(rows, reserved, indices, owner)
  }

  /** A stored page size is a positive one (the editor stores only the sizes it was shown with). */
  predicate SizeStored(s: Session)
    reads s
  {
    s.editPageSize.None? || s.editPageSize.value > 0
  }

  /**
   * The refresh shared by the two commit handlers: re-read the store, take the whole body or the
   * still-active batch, remember it, reset the page past the end, and show it.
   */
  method RefreshAfterCommit(ws: Worksheet, s: Session) returns (view: PageView)
    requires SizeStored(s)
    modifies s`editBaseRows, s`editTitle, s`editPage, s`editPageSize, s`reservedRows, s`reservedIndices, s`reservedOwner
    ensures var list := old(s.editSource) == "list";
      var newRows := RefreshedRows(ReadListaAny(ws.table), old(s.editSource), old(s.reservedRows),
                                   old(s.reservedIndices), old(s.reservedOwner));
      var size := SizeOr(old(s.editPageSize), if list then 10 else 5);
      var page := CommitPage(old(s.editPage), |newRows|, size);
      && s.editBaseRows == newRows
      && s.editTitle == (if !list then "Cambiar estado (Pendientes)" else if old(s.editTitle) == "" then "Cambiar estado (Lista)" else old(s.editTitle))
      && (!list ==> s.reservedRows == newRows)
      && view == EditView(newRows, s.editTitle, page, size)
      && s.editPage == (if newRows == [] then page else view.page)
    ensures SizeStored(s)
  {
    var allRows := ReadListaAny(ws.table);
    var newRows: seq<Row>;
    var size: int;
    if s.editSource == "list" {
      newRows := allRows;
      if s.editTitle == "" {
        s.editTitle := "Cambiar estado (Lista)";
      }
      size := SizeOr(s.editPageSize, 10);
    } else {
      var padded;
      newRows, padded := ActiveReservedRows(s, allRows);
      s.editTitle := "Cambiar estado (Pendientes)";
      size := SizeOr(s.editPageSize, 5);
    }
    s.editBaseRows := newRows;
    var page := CommitPage(s.editPage, |newRows|, size);
    s.editPage := page;
    view := ShowEditableList(s, newRows, s.editTitle, page, size);
  }

  /** What a commit handler answers. */
  datatype Reply =
    | InvalidIndex        // "Índice inválido", nothing written
    | AwaitNote           // the note is asked for next (state EDIT_OBS)
    | TargetMissing       // the note's row is gone; the conversation ends
    | Failed(reason: string)  // the store update raised
    | Committed(view: PageView)

  /**
   * The write both commit handlers share: `update_estado_by_row_index` on the row the editor
   * showed at `idx`, then, when it did not raise, the list refreshed.
   */
  method CommitRow(ws: Worksheet, backend: Backend, s: Session, idx: nat, nuevo: string, obs: string) returns (reply: Reply)
    requires SizeStored(s) && idx < |s.editBaseRows|
    modifies ws, s`editBaseRows, s`editTitle, s`editPage, s`editPageSize, s`reservedRows, s`reservedIndices, s`reservedOwner
    ensures reply.Committed? || reply.Failed?
    ensures var expected := UpdateEstadoRows(ReadListaAny(old(ws.table)), Pad6(old(s.editBaseRows)[idx]), nuevo, obs);
      && (expected.Some? ==> reply.Committed? && ReadListaAny(ws.table) == expected.value)
      && (expected.None? ==> ws.table == old(ws.table) && (reply.Failed? <==> backend == Sheets))
    ensures reply.Committed? ==> s.editBaseRows == RefreshedRows(ReadListaAny(ws.table), s.editSource,
      old(s.reservedRows), old(s.reservedIndices), old(s.reservedOwner))
  {
    var res := UpdateEstadoByRowIndex(ws, backend, idx, nuevo, s.editBaseRows, obs);
    if res.Err? {
      return Failed(res.reason);
    }
    reply := RefreshCommitted(ws, s);
  }

  /** The list refreshed after a successful write, as a commit's reply. */
  method RefreshCommitted(ws: Worksheet, s: Session) returns (reply: Reply)
    requires SizeStored(s)
    modifies s`editBaseRows, s`editTitle, s`editPage, s`editPageSize, s`reservedRows, s`reservedIndices, s`reservedOwner
    ensures reply.Committed?
    ensures s.editBaseRows == RefreshedRows(ReadListaAny(ws.table), s.editSource,
      old(s.reservedRows), old(s.reservedIndices), old(s.reservedOwner))
  {
    var view := RefreshAfterCommit(ws, s);
    return Committed(view);
  }

  /**
   * `on_edit_set_state`. An index outside the rows on screen is refused without writing;
   * "Contactar Luego" only remembers the row and asks for the note; any other status is written
   * to the row the editor showed (no note) and the list refreshed.
   */
  method OnEditSetState(ws: Worksheet, backend: Backend, s: Session, absIdx: int, nuevo: string) returns (reply: Reply)
    requires SizeStored(s)
    modifies ws, s`editBaseRows, s`editTitle, s`editPage, s`editPageSize, s`reservedRows, s`reservedIndices, s`reservedOwner, s`obsTargetIndex
    ensures reply == InvalidIndex <==> !(0 <= absIdx < |old(s.editBaseRows)|)
    ensures reply == AwaitNote <==> 0 <= absIdx < |old(s.editBaseRows)| && nuevo == CONTACTAR_LUEGO
    ensures reply == InvalidIndex || reply == AwaitNote ==> ws.table == old(ws.table) && ws.writes == old(ws.writes)
    ensures reply == AwaitNote ==> s.obsTargetIndex == Some(absIdx)
    ensures reply.Committed? || reply.Failed? ==>
      var expected := UpdateEstadoRows(ReadListaAny(old(ws.table)), Pad6(old(s.editBaseRows)[absIdx]), nuevo, "");
      && (expected.Some? ==> reply.Committed? && ReadListaAny(ws.table) == expected.value)
      && (expected.None? ==> ws.table == old(ws.table) && (reply.Failed? <==> backend == Sheets))
    ensures reply.Committed? ==> s.editBaseRows == RefreshedRows(ReadListaAny(ws.table), s.editSource,
      old(s.reservedRows), old(s.reservedIndices), old(s.reservedOwner))
  {
    var baseRows := s.editBaseRows;
    if !(0 <= absIdx < |baseRows|) {
      return InvalidIndex;
    }
    if nuevo == CONTACTAR_LUEGO {
      s.obsTargetIndex := Some(absIdx);
      return AwaitNote;
    }
    reply := CommitRow(ws, backend, s, absIdx, nuevo, "");
  }

  /**
   * `obs_text_handler`. With no remembered row, or one outside the rows on screen, nothing is
   * written and the conversation ends. Otherwise the row gets "Contactar Luego" with the trimmed
   * text as its note, the remembered row is forgotten and the list refreshed.
   */
  method ObsTextHandler(ws: Worksheet, backend: Backend, s: Session, text: string) returns (reply: Reply)
    requires SizeStored(s)
    modifies ws, s`editBaseRows, s`editTitle, s`editPage, s`editPageSize, s`reservedRows, s`reservedIndices, s`reservedOwner, s`obsTargetIndex
    ensures var idx := old(s.obsTargetIndex);
      reply == TargetMissing <==> idx.None? || !(0 <= idx.value < |old(s.editBaseRows)|)
    ensures reply == TargetMissing ==> ws.table == old(ws.table) && ws.writes == old(ws.writes)
    ensures reply.Committed? || reply.Failed? ==>
      var expected := UpdateEstadoRows(ReadListaAny(old(ws.table)), Pad6(old(s.editBaseRows)[old(s.obsTargetIndex).value]),
                                       CONTACTAR_LUEGO, Trim(text));
      && (expected.Some? ==> reply.Committed? && ReadListaAny(ws.table) == expected.value)
      && (expected.None? ==> ws.table == old(ws.table) && (reply.Failed? <==> backend == Sheets))
    ensures reply.Committed? ==> s.editBaseRows == RefreshedRows(ReadListaAny(ws.table), s.editSource,
      old(s.reservedRows), old(s.reservedIndices), old(s.reservedOwner))
    ensures reply.Committed? ==> s.obsTargetIndex.None?
    ensures !reply.Committed? ==> s.obsTargetIndex == old(s.obsTargetIndex)
  {
    var obs := Trim(text);
    var baseRows := s.editBaseRows;
    var idx := s.obsTargetIndex;
    if idx.None? || !(0 <= idx.value < |baseRows|) {
      return TargetMissing;
    }
    reply := CommitRow(ws, backend, s, idx.value, CONTACTAR_LUEGO, obs);
    if reply.Committed? {
      s.obsTargetIndex := None;
    }
  }

  /** `on_edit_pick_row`: a row on screen is remembered as the selection and its line returned. */
  method OnEditPickRow(s: Session, absIdx: int) returns (persona: Option<string>)
    modifies s`editSelectedIdx
    ensures !(0 <= absIdx < |s.editBaseRows|) <==> persona.None?
    ensures persona.None? ==> s.editSelectedIdx == old(s.editSelectedIdx)
    ensures persona.Some? ==> s.editSelectedIdx == Some(absIdx) && persona.value == FormatPersona(Pad6(s.editBaseRows[absIdx]))
  {
    var baseRows := s.editBaseRows;
    if !(0 <= absIdx < |baseRows|) {
      return None;
    }
    s.editSelectedIdx := Some(absIdx);
    return Some(FormatPersona(Pad6(baseRows[absIdx])));
  }

  /** `on_edit_page_callback`: the rows on screen again, at the requested page. */
  method OnEditPage(s: Session, page: int) returns (view: PageView)
    requires SizeStored(s)
    modifies s`editPageSize, s`editPage
    ensures view == EditView(s.editBaseRows, if s.editTitle == "" then "Cambiar estado" else s.editTitle,
                             page, SizeOr(old(s.editPageSize), 5))
  {
    var title := if s.editTitle == "" then "Cambiar estado" else s.editTitle;
    view := ShowEditableList(s, s.editBaseRows, title, page, SizeOr(s.editPageSize, 5));
  }

  // ---------------------------------------------------------------------------------------
  // The vCard of the rows in hand (`send_reserved_vcf`)
  // ---------------------------------------------------------------------------------------

  /**
   * The rows the vCard is built from: the claimed batch; else the selected row on screen; else up
   * to five rows of the editor from the current page's first index; else, with nothing on
   * screen, the first five "Pendiente" rows of the store.
   */
  function VcfRows(reserved: seq<Row>, base: seq<Row>, selected: Option<int>, page: int, size: int,
                   store: seq<Row>): seq<Row>
  {
    if reserved != [] then reserved
    else if selected.Some? && 0 <= selected.value < |base| then [base[selected.value]]
    else if base != [] then Slice(base, page * size, page * size + 5)
    else var pendientes := FilterByStatus(store, PENDIENTE); pendientes[..if |pendientes| < 5 then |pendientes| else 5]
  }

  /** The rows a vCard is built from are the claimed batch or at most five rows. */
  lemma VcfRowsBound(reserved: seq<Row>, base: seq<Row>, selected: Option<int>, page: int, size: int, store: seq<Row>)
    requires page >= 0 && size > 0
    ensures var rows := VcfRows(reserved, base, selected, page, size, store);
      rows == reserved || |rows| <= 5
    ensures reserved == [] && base == [] ==>
      forall r :: r in VcfRows(reserved, base, selected, page, size, store) ==> r in store && HasStatus(r, PENDIENTE)
  {
    if reserved == [] && base == [] {
      var pendientes := FilterByStatus(store, PENDIENTE);
      var n := if |pendientes| < 5 then |pendientes| else 5;
      forall r | r in pendientes[..n]
        ensures r in store && HasStatus(r, PENDIENTE)
      {
        FilterByStatusMembership(store, PENDIENTE, r);
      }
    } else if reserved == [] && !(selected.Some? && 0 <= selected.value < |base|) {
      MulLe(0, page, size);
    }
  }

  /** What the vCard button answers. */
  datatype VcfReply = NothingToExport | NoPhones | Document(lines: seq<string>)

  /**
   * `send_reserved_vcf`: the cards of the chosen rows (rows with a blank phone skipped, a blank
   * name written "Pendiente <n>"), or the reason there is no document.
   */
  method SendReservedVcf(ws: Worksheet, s: Session) returns (reply: VcfReply)
    ensures var rows := VcfRows(s.reservedRows, s.editBaseRows, s.editSelectedIdx, s.editPage,
                                SizeOr(s.editPageSize, 5), ReadListaAny(ws.table));
      && (reply == NothingToExport <==> rows == [])
      && (reply == NoPhones <==> rows != [] && WithPhone(rows) == [])
      && (reply.Document? ==> reply.lines == Cards(rows, MakerOf(Reserved), 0)
                              && |reply.lines| == 5 * |WithPhone(rows)|)
  {
    var rows := PickVcfRows(ws, s);
    if rows == [] {
      return NothingToExport;
    }
    var lines := WriteCards(rows, Reserved);
    MakerOfFiveLines(Reserved);
    CardsLength(rows, MakerOf(Reserved), 0);
    if lines == [] {
      return NoPhones;
    }
    return Document(lines);
  }

  /** The choice of rows at the start of `send_reserved_vcf`. */
  method PickVcfRows(ws: Worksheet, s: Session) returns (rows: seq<Row>)
    ensures rows == VcfRows(s.reservedRows, s.editBaseRows, s.editSelectedIdx, s.editPage,
                            SizeOr(s.editPageSize, 5), ReadListaAny(ws.table))
  {
    rows := s.reservedRows;
    if rows == [] {
      var baseRows := s.editBaseRows;
      var sel := s.editSelectedIdx;
      if sel.Some? && 0 <= sel.value < |baseRows| {
        rows := [baseRows[sel.value]];
      }
    }
    if rows == [] {
      var editRows := s.editBaseRows;
      var page := s.editPage;
      var size := SizeOr(s.editPageSize, 5);
      if editRows != [] {
        var start := page * size;
        rows := Slice(editRows, start, start + 5);
      } else {
        var pendientes := FilterByStatus(ReadListaAny(ws.table), PENDIENTE);
        rows := pendientes[..if |pendientes| < 5 then |pendientes| else 5];
      }
    }
  }
}
