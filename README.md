# Contact roster bot — a Dafny model

This project models the core of a Telegram bot that a team uses to work through a roster of
people (name, surname, phone, DNI, status, and a "Contactar Luego" note).

The roster lives in a spreadsheet tab or a CSV file. Operators **claim** a batch of "Pendiente"
rows: each claimed row is tagged "En contacto - <operator>". They then move each claimed row to
"Aceptado", "Rechazado" or "Contactar Luego", or **release** the batch back to "Pendiente".
The listings, the Google Contacts export and the vCard export are built from the same rows.
Two role registries, admins and allowed users, gate every handler.

What the model covers:

- **Row layer.** The spreadsheet is a `Worksheet` class whose table the operations rewrite. Its
  `writes` counter lets the model promise how many writes each operation makes.
- **Handlers.** The menu, editor, add-contact dialog, admin panel and plain commands are
  methods. They act on that store and on the operator's session (`Session`, the handler's
  `user_data`).
- **Replies.** Each reply a handler sends is returned as a value.
- **The single-file bot.** `bot_unico.py` works on a five-column CSV with flexible headers.
- **Legacy scripts.** The three `Funcionalidades` scripts are an Excel/CSV reader, a Google
  Contacts export and a vCard export for poll-station officials.

How operations are specified:

- **Pure transforms** are functions: text normalisation, header mapping, status
  classification, key matching, exports and pagination. Their properties are proved as lemmas:
  - round trips;
  - both directions of each classifier;
  - every row accounted for;
  - nothing else changes.
- **Loops and state-changing operations** are methods. Each is proved equal to a specification
  function, and that function's properties are proved separately. Examples:
  - the claim selection;
  - reconciling and releasing a batch;
  - the batched listings;
  - the upsert;
  - the role registries.

## Model

| member | source | states |
|---|---|---|
| Text.Trim | bot/services/lista.py:11 | the stripped text is no longer than the input, has no whitespace at either end, and a text with none is returned as is |
| Text.Lower | bot/services/lista.py:13 | lower-casing (ASCII and Latin-1 letters) keeps the length and lower-cases each character on its own |
| Text.Norm | bot/services/lista.py:10-13 | the normalised text is the stripped text, each character accent-folded and lower-cased |
| Text.NormStartsWith | bot/handlers/edit.py:21-23 | a stripped status starting with a prefix still starts with the normalised prefix after normalising |
| Text.Split | bot/handlers/admin.py:82 | `str.split()` gives non-empty words without whitespace |
| Text.SplitLeadingSpace | bot/handlers/admin.py:82 | leading whitespace does not change the words |
| Text.SplitOn | bot/services/roles.py:51 | `str.split(",")` gives at least one piece, none holding the separator |
| Text.JoinSplitOn | bot/services/roles.py:51 | the pieces joined by the separator give back the text |
| Text.ParseNatToString | bot/handlers/admin.py:86 | an id written out in decimal is read back as itself |
| Lista.PadRow | bot/services/lista.py:30-33 | `_pad_row` gives exactly n cells: the row's own where it has them, "" after its end, and the row itself when it already has n |
| Lista.PadAll | bot/services/lista.py:39 | padding every row keeps their number and order, and changes nothing in rows already padded |
| Lista.CleanPhone | bot/services/lista.py:15-16 | `_clean_phone` never lengthens the text and leaves no blank and no dash in it; every other character of the phone survives, and nothing else appears |
| Lista.CleanPhoneKeepsDigits | bot/services/lista.py:15-16 | a telephone written as plain digits is stored exactly as typed |
| Lista.ReadListaAny | bot/services/lista.py:35-44 | `read_lista_any` drops the header and returns every other row padded to six cells, in order; an empty source gives no rows |
| Lista.ReadAfterSet | bot/services/lista.py:35-53 | reading back what `set_lista_any` wrote gives the padded rows, and exactly the rows when they were already padded |
| Lista.SetListaAny | bot/services/lista.py:46-53 | `set_lista_any` replaces the whole store by the header and the padded rows in one write, and reading it back gives those rows |
| Lista.FilterByStatus | bot/services/lista.py:83-84 | the filter keeps only rows with the status, never more rows than it was given |
| Lista.FilterByStatusMembership | bot/services/lista.py:83-84 | a row survives the filter exactly when it is one of the input's and has an Estado cell equal to the status |
| Lista.FilterByStatusConcat | bot/services/lista.py:83-84 | the filter treats each row on its own and so keeps the original order |
| Lista.FirstKeyHit | bot/services/lista.py:89-97 | the position reported is a key hit (same trimmed phone, or same trimmed non-empty DNI) with no hit before it, or -1 exactly when no row hits |
| Lista.FindByKeysFallback | bot/services/lista.py:89-97 | the loop of `_find_by_keys_fallback` returns the first key hit, or -1 |
| Lista.Upsert | bot/services/lista.py:55-81 | the outcome is "updated" exactly when some row shares the phone or a non-empty DNI; then the first such row is replaced and nothing else changes; otherwise the row is appended |
| Lista.UpsertTwice | bot/services/lista.py:55-81 | adding the same contact twice reports "updated" the second time and leaves the list as the first call left it |
| Lista.OverlayRow | bot/services/lista.py:68 | the range update of columns A to F leaves a sheet row that reads back as exactly the new row |
| Lista.FindUpsertMatch | bot/services/lista.py:66-69 | the scan returns the first body row sharing a key with the new row |
| Lista.AppendContactAny | bot/services/lista.py:55-81 | both backends leave the body and report the outcome that `Upsert` describes; the CSV backend rewrites the file once, the sheet backend writes one row, after the header on an empty sheet |
| Lista.AppendRowSheets | bot/services/lista.py:58-71 | the sheet branch leaves the `Upsert` body and outcome, in one write, or two when the header had to be written first |
| Lista.AppendRowCsv | bot/services/lista.py:72-81 | the CSV branch leaves the `Upsert` body and outcome behind the header, in one write |
| Lista.WithEstado | bot/services/lista.py:125-131 | a status change keeps the row's six cells |
| Lista.LocateRow | bot/services/lista.py:103-107 | the row located is the first exact padded copy of the target when there is one, and otherwise the first key hit |
| Lista.UpdateEstadoRows | bot/services/lista.py:99-132 | nothing is found exactly when no row is located; otherwise only the located row changes: its Estado becomes the new status, its Observación is the note for "Contactar Luego", cleared for "Pendiente" and "En contacto…", and kept otherwise |
| Lista.PadSetCell | bot/services/lista.py:111-116 | writing one cell of a sheet row and padding the row commute, for the six roster columns |
| Lista.LocateTarget | bot/services/lista.py:103-107 | the lookup returns the row that `LocateRow` specifies |
| Lista.UpdateEstadoCells | bot/services/lista.py:110-116 | the sheet branch writes the Estado cell and, when the status touches the note, the Observación cell, leaving the `UpdateEstadoRows` body |
| Lista.UpdateEstadoByRowIndex | bot/services/lista.py:99-132 | when a row is located both backends leave the `UpdateEstadoRows` body; when none is, nothing is written, the sheet backend raises and the CSV backend returns quietly |
| Exports.GoogleRow | bot/services/exports.py:11-20 | a Google Contacts row has one cell per Google header |
| Exports.GoogleRowInverse | bot/services/exports.py:11-20 | no roster cell is lost or moved: the roster row is read back whole from its Google row |
| Exports.GenContactsAny | bot/services/exports.py:8-26 | the output is the Google header, then one mapped row per roster row, in order |
| Exports.TelUri | bot/services/exports.py:39 | the `tel:` text holds exactly the phone's digits and '+' characters, and is never longer than the phone |
| Exports.TelUriKeepsDialable | bot/services/exports.py:39 | a phone already made of digits and '+' goes into the URI unchanged |
| Exports.Card | bot/services/exports.py:41-45 | a card is five lines: BEGIN:VCARD, VERSION:4.0, "FN:" with the display name, the TEL line with the `tel:` text of the phone, END:VCARD |
| Exports.MakerOfFiveLines | bot/services/exports.py:41-45 | every card the export writes is five lines long |
| Exports.WithPhone | bot/services/exports.py:35-37 | the rows that get a card are never more than the rows read |
| Exports.CardsLength | bot/services/exports.py:32-45 | the file holds one five-line card per row whose trimmed phone is not blank |
| Exports.CardListAt | bot/services/exports.py:38-40 | card i is the card of row i, numbered after the cards before it |
| Exports.CardsFiltered | bot/services/exports.py:32-45 | skipping rows without a phone first and numbering afterwards gives the same cards: the count advances only on written cards |
| Exports.ConcatBlock | bot/services/exports.py:41-45 | block k of five lines of the written cards is card k |
| Exports.CardsByEmitted | bot/services/exports.py:32-45 | the k-th card of the file belongs to the k-th row with a phone and is numbered k + 1 |
| Exports.WriteCards | bot/services/exports.py:29-45 | the loop writes what `Cards` specifies |
| Exports.GenVcardFromRows | bot/services/exports.py:28-46 | `gen_vcard_from_rows` writes the "Fiscal <etiqueta>" cards of the rows |
| Exports.GenVcardAny | bot/services/exports.py:48-50 | `gen_vcard_any` writes the cards of the whole roster as read |
| Roles.CellId | bot/services/roles.py:17-20 | an id read from a cell is never negative |
| Roles.Registry | bot/services/roles.py:14-20 | the registry a tab describes holds only non-negative ids |
| Roles.RegistrySnoc | bot/services/roles.py:14-20 | one more row with an id sets that id's name; a row without one changes nothing |
| Roles.RegistryConcat | bot/services/roles.py:14-20 | the registry of two runs of rows is the first's overridden by the second's: later rows win |
| Roles.RegistryHas | bot/services/roles.py:14-20 | an id is registered exactly when some row carries it |
| Roles.RegistryLast | bot/services/roles.py:14-20 | a registered id has the name of the last row that carries it |
| Roles.ReadIdsAndNames | bot/services/roles.py:6-21 | the loop reads the tab's body, skipping empty rows and rows without a numeric id, into the registry |
| Roles.FirstRowOf | bot/services/roles.py:30-31 | the rewrite targets the first row below the header carrying the id, or none |
| Roles.Rewritten | bot/services/roles.py:32 | the range update A:B writes the id and the name over the first two cells and keeps the rest |
| Roles.AppendIdName | bot/services/roles.py:23-35 | a new id is appended with its name; a registered id given a non-empty different name has its first row rewritten; otherwise the tab is untouched; one write or none |
| Roles.NewRowReads | bot/services/roles.py:35 | the row the bot appends reads back as the id with the stripped name |
| Roles.RegisteredHasRow | bot/services/roles.py:26-33 | a registered id is carried by a row below the header, so the rewrite always finds its row |
| Roles.AppendRegisters | bot/services/roles.py:23-35 | for an id carried by at most one row: after adding, the id is registered, a new id with the stripped name; a known id keeps its name when the name given is empty or the same and otherwise takes the stripped new name; all other ids are untouched |
| Roles.AppendNew | bot/services/roles.py:35 | appending the row of a new id registers it with the stripped name and leaves the rest |
| Roles.AppendRename | bot/services/roles.py:29-33 | rewriting the only row of an id renames it and leaves the rest |
| Roles.RemoveStop | bot/services/roles.py:42-47 | the removal stops at the first row below the header that is empty or carries the id, or nowhere |
| Roles.RemoveId | bot/services/roles.py:37-47 | the first row carrying the id is deleted and true answered; false and no write when none does or the tab is empty; an empty row met first raises IndexError |
| Roles.RemoveUnregisters | bot/services/roles.py:37-47 | on a tab without empty rows and for an id carried by at most one row, the answer is true exactly when the id was registered, and then the id is unregistered and every other id keeps its name |
| Roles.RemoveMissing | bot/services/roles.py:47 | when no row is found the id was not registered |
| Roles.RemoveFound | bot/services/roles.py:42-46 | for an id carried by at most one row, the row the removal stops at carries a registered id, and deleting it removes exactly that id |
| Roles.RemoveLeavesDuplicate | bot/services/roles.py:42-47 | with the id on two rows, the removal stops at a row and so answers true, yet the id is still registered afterwards |
| Roles.RenameHiddenByLaterRow | bot/services/roles.py:29-33 | with the id on a row after the first one carrying it, a rename writes once but leaves the registry exactly as it was |
| Roles.RowHidden | bot/services/roles.py:14-20 | a row whose id a later row also carries does not affect the registry, whatever its name |
| Roles.RemoveOnly | bot/services/roles.py:45 | deleting the only row of an id unregisters it and leaves the other ids as they were |
| Roles.IdsOf | bot/services/roles.py:51 | the ids read from an environment list are non-negative and have empty names |
| Roles.IdsOfKeys | bot/services/roles.py:51 | an id is in the environment list exactly when one of its comma-separated pieces strips to its digits (both directions) |
| Roles.IdsOfSound | bot/services/roles.py:51 | every id listed is spelled by some piece |
| Roles.IdsOfComplete | bot/services/roles.py:51 | every id some piece spells is listed |
| Roles.AdminsMap | bot/services/roles.py:49-54 | the admins are the environment ids plus, with sheets, the admins tab; a name comes from the tab, otherwise it is empty |
| Roles.FillMissing | bot/services/roles.py:63-65 | the loop adds exactly the missing keys, keeping every value already present |
| Roles.FillMissingIsMerge | bot/services/roles.py:63-65 | adding only the missing keys is the merge with the existing entries on top |
| Roles.AllowedUnion | bot/services/roles.py:56-66 | the allowed users are exactly the environment's allowed ids, the admins and, with sheets, the allowed tab; every admin is allowed; a name comes from the allowed tab, then the admins, else it is empty |
| Roles.GetAdminsMap | bot/services/roles.py:49-54 | `get_admins_map` returns `AdminsMap` of the environment and the admins tab's registry |
| Roles.GetAllowedMap | bot/services/roles.py:56-66 | `get_allowed_map` returns `AllowedMap` of the environment and both tabs' registries |
| Roles.AddMissing | bot/services/roles.py:63-65 | the loop over the environment ids returns `FillMissing` |
| Auth.LockedIffAllowed | bot/auth.py:9-17 | with the id sets the registries give, the bot is locked exactly when FORCE_LOCK strips to "1" or someone is allowed, since every admin is an allowed user |
| Auth.DisplayFor | bot/auth.py:19-30 | the name shown is never empty; a non-empty registered name wins; otherwise the id is shown exactly when the update has no user, or one with no username and a full name that is empty or the id itself |
| Auth.LabelShowsKnownName | bot/auth.py:19-30 | the current user's label adds a name after the id exactly when a registered name, a username or a full name other than the id is known |
| Auth.RequireAuth | bot/auth.py:32-54 | the handler runs exactly when the bot is unlocked or the user is allowed; a denial answers "Acceso denegado" as an alert, a reply, or a message to a non-zero chat id, by the update's channel |
| Auth.RequireAdmin | bot/auth.py:56-70 | the handler runs exactly when the user is an admin, locked or not; a denial answers "Solo administradores" to a query or a message and is silent otherwise |
| Auth.AdminPassesAuth | bot/auth.py:32-70 | whoever passes the admin gate passes the allowed-user gate, and the admin gate only opens on a locked bot |
| Pagination.SkipSpaces | bot/utils/pagination.py:12-15 | `\s*` stops at the first non-blank at or after i, every character skipped being blank |
| Pagination.DigitRunEnd | bot/utils/pagination.py:12-15 | `\d+` greedily stops at the first non-digit at or after i |
| Pagination.DashedNumberStart | bot/utils/pagination.py:12-17 | a match of either dashed pattern starts with "En contacto" and finds a run of five or more digits ending at a word boundary |
| Pagination.SearchNumber | bot/utils/pagination.py:19 | `re.search(r"\b(\d{5,})\b")`: the result is the leftmost start of a run of five or more digits with a word boundary on each side, and -1 exactly when there is none |
| Pagination.TagFor | bot/utils/pagination.py:14-20 | the collapsed form is "En contacto - " followed by the number of five or more digits |
| Pagination.CleanEstadoForDisplay | bot/utils/pagination.py:7-22 | an empty status is returned as is; a status not starting with "En contacto" comes back stripped, and so does one that matches neither dashed pattern and has no "Update("; every result is the stripped status, plain "En contacto", or "En contacto - <number>" |
| Pagination.CleanUpdate | bot/utils/pagination.py:18-20 | a corrupted "En contacto ... Update(" status with no dashed number becomes the tag of its leftmost word-bounded number, or plain "En contacto" exactly when it has none |
| Pagination.CleanKeepsNamedTag | bot/utils/pagination.py:21-22 | the usual "En contacto - <name>" status, with a name not starting with a digit or "(", is shown as it is |
| Pagination.CleanKeepsNumericTag | bot/utils/pagination.py:7-22 | the clean form of "En contacto - <number>" is itself |
| Pagination.CleanCollapsesDashedNumber | bot/utils/pagination.py:12-17 | "En contacto", blanks, any of the three dashes, blanks, an optional "(" and a number of five or more digits followed by a non-word character collapses to "En contacto - <number>" |
| Pagination.CleanAtDashed | bot/utils/pagination.py:10-17 | a stripped status matched by one of the dashed patterns cleans to the tag of its number |
| Pagination.DashedStart | bot/utils/pagination.py:12-17 | in a dashed corrupted status, the pattern that applies finds the number where it starts, and the bracketed pattern does not apply without a "(" |
| Pagination.Chunks | bot/utils/pagination.py:24-26 | the slices are non-empty and hold `size` elements each, except possibly the last; there are none exactly when the input is empty |
| Pagination.ChunksCount | bot/utils/pagination.py:24-26 | there are ceil(n / size) slices |
| Pagination.ChunksFlatten | bot/utils/pagination.py:24-26 | the slices put back together are the input |
| Pagination.ChunkElement | bot/utils/pagination.py:24-26 | element i of slice p is element p*size + i of the input, the numbering the paged lists show |
| Pagination.PersonaLineShapes | bot/utils/pagination.py:36-39 | a line is the head alone, the head with " - <status>", or that with " (<note>)" |
| Pagination.FormatPersonaCases | bot/utils/pagination.py:28-41 | `_format_persona` gives "tel: nombre, apellido" alone for an empty cleaned status, with " - <status>" otherwise, and adds " (<note>)" only beside a "Contactar Luego" status with a non-empty note |
| Menu.CurrentUserLabel | bot/handlers/menu.py:17-23 | "Sin usuario" exactly when there is no user; otherwise the label starts with the id, and is the bare id exactly when the display name is empty or equal to the id; never empty, no trailing space |
| Menu.MatchesRowKey | bot/handlers/menu.py:26-43 | a key built from a target row matches exactly the rows sharing its non-empty phone or its non-empty DNI |
| Menu.PendingPositions | bot/handlers/menu.py:46-52 | every entry is a pending row with its index and padded contents, in strictly increasing index order, and no pending row is missed |
| Menu.PendingPositionsOf | bot/handlers/menu.py:46-52 | the loop builds exactly the pending queue |
| Menu.TryAddIndex | bot/handlers/menu.py:66-74 | an index is added exactly when it is new, in range and pending in the fresh read |
| Menu.SelectIndices | bot/handlers/menu.py:56-95 | the selection loop computes the pending queue and the selection, which is distinct in-range pending indices, empty when nothing is pending |
| Menu.SelectionSound | bot/handlers/menu.py:56-95 | the selection `Menu.Selection` makes (the index, key and queue phases of `_reserve_pendientes_for_user`) is previewed indices, then rows matching a previewed key, then a strictly increasing run of the queue, all distinct and pending |
| Menu.SelectionPhases | bot/handlers/menu.py:76-89 | the first two phases append only previewed indices and then rows matching a previewed key |
| Menu.SelectionQueue | bot/handlers/menu.py:91-95 | the third phase is a strictly increasing run that leaves no earlier pending row behind |
| Menu.SelectionCount | bot/handlers/menu.py:62-95 | the batch holds `min(limit, pending)` rows for a positive limit, every pending row for a zero one, none for a negative one |
| Menu.ClaimedRow | bot/handlers/menu.py:104-106 | the claimed row is padded, carries Estado "En contacto - <who>" and no note, and keeps every other column |
| Menu.TagSelected | bot/handlers/menu.py:103-108 | the loop tags exactly the selected rows and collects them, in selection order |
| Menu.CommitClaim | bot/handlers/menu.py:100-115 | the store is written once with the selected rows tagged; the session records owner, rows and indices and forgets the preview |
| Menu.ReservePendientes | bot/handlers/menu.py:55-116 | with nothing selected nothing is written and the session is unchanged; otherwise the store and session are as after the claim of the selection |
| Menu.CmdMenu | bot/handlers/menu.py:120-136 | the held reservation is released into the store and dropped from the session; the menu holds the five buttons, plus administration exactly for an admin |
| Menu.PreviewPendientes | bot/handlers/menu.py:338-350 | with no batch held: with nothing pending the preview indices and owner are dropped; otherwise the first five queue entries are shown and their keys, indices and count remembered, and the owner dropped |
| Menu.ShowHeldBatch | bot/handlers/menu.py:314-337 | with a batch held: the owner becomes `HeldOwner` of the old owner and the held rows, the preview keys, indices and size are dropped, and the reply lists the held rows' count and their `_format_persona` lines |
| Menu.HeldOwner | bot/handlers/menu.py:316-321 | a known owner is kept; with none and no "En contacto - " tag on the first held row, none is adopted |
| Menu.HeldOwnerOfClaim | bot/handlers/menu.py:316-321 | a batch claimed without recording its owner (as `cmd_get_pendientes` does) gets the claimant back as owner when shown |
| Menu.PreviewThenClaim | bot/handlers/menu.py:55-95 | claiming with what the preview remembered selects exactly the previewed indices |
| Menu.TagOfLabel | bot/handlers/menu.py:105 | a claim tag for a label reads back as "en contacto" tagged for that label |
| Menu.ClaimedEstado | bot/handlers/menu.py:104-106 | the Estado a claim writes is the tag, which the editor reads as in contact and owned by the claimant |
| Menu.ClaimThenReconcile | bot/handlers/edit.py:37-80 | right after a claim, reconciling the session against the written store answers exactly the claimed batch |
| Menu.ReleasedAll | bot/handlers/edit.py:96-117 | releasing every claimed index restores the original rows with notes cleared and leaves none tagged for the claimant |
| Menu.ClaimThenRelease | bot/handlers/edit.py:83-145 | releasing right after a claim puts every claimed row back as before, note cleared, leaves other rows alone and reports a change |
| Menu.ClaimedNotPending | bot/handlers/menu.py:104-106 | a claimed row is no longer "Pendiente" |
| Menu.SequentialClaimsDisjoint | bot/handlers/menu.py:55-110 | two claims one after the other never share a row: the second selects none of the rows the first tagged |
| Reservation.TagOwnerOf | bot/handlers/edit.py:58-59 | the owner read back from a claim tag is the owner written into it |
| Reservation.FindRowByKeys | bot/handlers/edit.py:26-34 | the index is the first row whose phone equals the target's or whose DNI equals the target's non-empty DNI, -1 when none; the row is that row padded |
| Reservation.ReconcileSound | bot/handlers/edit.py:37-80 | reconciliation only pads store rows; every active row is an in-range row still "en contacto", tagged for the known owner; a known owner is kept; a successful index pass keeps only remembered indices |
| Reservation.ReconcileExact | bot/handlers/edit.py:37-80 | with a known owner, `Reservation.Reconcile` (the two passes of `_active_reserved_rows`) keeps exactly the remembered indices whose row is in range, still "en contacto" and tagged for the owner, in order and with repeats; only when none is, and rows were cached, it keeps exactly the qualifying positions the cached rows are found at by key; each kept row is the padded store row |
| Reservation.ReconcileKeepsPaddedRows | bot/handlers/edit.py:46-74 | on a padded store, reconciliation leaves the rows as they are |
| Reservation.IncludeStep | bot/handlers/edit.py:46-63 | one `_include_by_index`, and the session's owner follows the adopted owner |
| Reservation.IndexPass | bot/handlers/edit.py:65-66 | the index pass includes each remembered index in turn |
| Reservation.KeyPass | bot/handlers/edit.py:68-74 | the key pass re-locates each cached row by key, pads it in place and includes it |
| Reservation.ActiveReservedRows | bot/handlers/edit.py:37-80 | an empty session gives no rows and is left alone; otherwise the session holds exactly the active rows and indices, and loses its owner when none stayed active |
| Reservation.Released | bot/handlers/edit.py:113-114 | a reverted row is "Pendiente" with no note and keeps every column before Estado |
| Reservation.UndoChanged | bot/handlers/edit.py:117-137 | the release reports a change exactly when some row differs from the store it read |
| Reservation.ReleaseSound | bot/handlers/edit.py:83-137 | each row is untouched, or was "en contacto" (for the known owner) and is now its reverted form; so no other status is ever reverted, and a change is reported exactly when a row differs |
| Reservation.ReleaseExact | bot/handlers/edit.py:83-137 | with a known owner, in the store `Reservation.Release` (the two passes of `release_reservation`) leaves, a row is reverted to "Pendiente" with an empty note exactly when it is still "en contacto" tagged for the owner and is remembered by index or found by a cached row's key; every other row is left as it was |
| Reservation.ReleaseStep | bot/handlers/edit.py:96-117 | one `_release_at_index`, and the session's owner is kept or follows the adopted owner |
| Reservation.ReleaseIndices | bot/handlers/edit.py:119-120 | each remembered index released in turn, hinted with the known owner |
| Reservation.ReleaseKeys | bot/handlers/edit.py:122-134 | each cached row looked up by key, skipped when already reverted, and released with the owner or its own tag as hint |
| Reservation.ReleaseReservation | bot/handlers/edit.py:83-140 | the session always ends with no rows, indices or owner; an empty session leaves the store alone; otherwise the store is rewritten once exactly when the release changed a row |
| Edit.ClampPage | bot/handlers/edit.py:152 | the clamped page is a page that exists, and an existing page is kept |
| Edit.PageEntries | bot/handlers/edit.py:157-161 | a page lists one entry per row of its chunk |
| Edit.EditView | bot/handlers/edit.py:146-173 | there is nothing to edit exactly when there are no rows; otherwise the shown page exists and carries the title |
| Edit.ShowEditableList | bot/handlers/edit.py:146-173 | an empty list leaves the session alone; otherwise the page size and the clamped page are remembered and the view is the editor's view of the rows |
| Edit.ListPage | bot/handlers/edit.py:157-161 | the listing loop writes one entry per row of the page, numbered from the page's first index |
| Edit.ShownEntriesAreRows | bot/handlers/edit.py:151-161 | there are ceil(n / size) pages, and the k-th button of the shown page carries index page * size + k, inside the list, and lists that row |
| Edit.CommitPageInRange | bot/handlers/edit.py:255-259 | after a commit the page is within [0, max(1, ceil(n / size)) - 1] when it was not negative, an in-range page is kept, and the editor then shows that page unchanged |
| Edit.RefreshAfterCommit | bot/handlers/edit.py:244-261 | the rows are re-read: the whole store for the list editor, else the still-active batch; title, page size default and page reset follow the source, and the view is of the new rows |
| Edit.CommitRow | bot/handlers/edit.py:243-261 | the row the editor showed is updated in the store exactly as `update_estado_by_row_index` would, or the call fails only on the sheet backend; on success the list is refreshed |
| Edit.RefreshCommitted | bot/handlers/edit.py:244-261 | a successful write answers with the refreshed rows |
| Edit.OnEditSetState | bot/handlers/edit.py:222-261 | an index outside the rows on screen is refused without writing; "Contactar Luego" only remembers the row; any other status is written to that row with no note and the list refreshed |
| Edit.ObsTextHandler | bot/handlers/edit.py:276-303 | no remembered row, or one outside the rows on screen, ends without writing; otherwise the row gets "Contactar Luego" with the trimmed text as note, the remembered row is forgotten and the rows on screen are the refreshed ones |
| Edit.OnEditPickRow | bot/handlers/edit.py:189-199 | a row is picked exactly when its index is on screen, and then it is remembered and its line shown |
| Edit.OnEditPage | bot/handlers/edit.py:177-185 | the rows on screen are shown again at the requested page, with the stored title and size or their defaults |
| Edit.VcfRowsBound | bot/handlers/edit.py:312-331 | the card rows are the claimed batch or at most five rows; with nothing on screen they are pending rows of the store |
| Edit.PickVcfRows | bot/handlers/edit.py:312-331 | the rows are chosen by the fallback order: the batch, the selected row, five rows from the page start, the first five pending rows |
| Edit.SendReservedVcf | bot/handlers/edit.py:333-353 | no rows answers "nothing to export"; rows all without a phone answer "no phones"; otherwise the document is five lines per row with a phone |
| Commands.ListLines | bot/handlers/commands.py:17-19 | one listing line per row, "tel: nombre, apellido" of the padded row, in row order |
| Commands.BlockFull | bot/handlers/commands.py:20 | counting on from a whole number of blocks, a block is flushed exactly when twenty more lines were added |
| Commands.SendBlocks | bot/handlers/commands.py:16-24 | the blocking loop sends exactly the twenty-line chunks of the listing lines |
| Commands.ChunksConcat | bot/handlers/commands.py:16-24 | chunking whole blocks and then the rest is chunking the whole listing |
| Commands.CmdGetLista | bot/handlers/commands.py:12-24 | an empty store answers "La lista está vacía."; otherwise the listing of every row, twenty lines per message |
| Commands.SendListByStatus | bot/handlers/commands.py:26-38 | no rows answers "No hay personas <titulo>."; otherwise an introduction, then the listing twenty lines per message |
| Commands.CmdGetByStatus | bot/handlers/commands.py:59-66 | the listing of exactly the rows with that status, under the lower-cased title |
| Commands.ListingCoversRows | bot/handlers/commands.py:16-38 | the messages hold one line per row in row order, there are ceil(n / 20) of them, each full but a non-empty last one |
| Commands.CmdGetPendientes | bot/handlers/commands.py:41-54 | with no pending row nothing is written or reserved and the reply is "No hay personas pendientes."; otherwise the first min(5, pending) pending rows are tagged with no note, the store is written once, they become the session's rows and the reply lists one "tel: nombre, apellido" line per tagged row |
| Commands.LegacySelectionValid | bot/handlers/commands.py:43-48 | the older claim takes pending rows, distinct and in store order, min(5, pending) of them, none exactly when nothing is pending, skipping no earlier pending row |
| Commands.LegacyIsClaim | bot/handlers/commands.py:43-52 | the older claim takes the same rows as the menu's claim with no preview and a limit of five |
| AddContact.ClassifyEstado | bot/handlers/add_contact.py:45-61 | a text that saves is saved with one of the four statuses the classifier names |
| AddContact.ClassifyCanonical | bot/handlers/add_contact.py:45 | case and surrounding blanks do not matter: the stripped, lower-cased text classifies the same |
| AddContact.CanonicalIdempotent | bot/handlers/add_contact.py:45 | stripping and lower-casing a second time changes nothing |
| AddContact.KeyboardLabels | bot/handlers/add_contact.py:37-61 | each button of the status keyboard classifies as itself, and "Contactar Luego" asks for a note |
| AddContact.ContactRow | bot/handlers/add_contact.py:63-64 | the saved row is six cells: the four typed fields ("" when never typed), the status and the note |
| AddContact.SavedReplyVerb | bot/handlers/add_contact.py:66-68 | the confirmation says "actualizado" exactly when the upsert replaced a row, else "agregado" |
| AddContact.AddStart | bot/handlers/add_contact.py:14-18 | the contact starts empty and the name is asked next |
| AddContact.AddNombre | bot/handlers/add_contact.py:20-23 | the stripped text is the name; the surname is asked next |
| AddContact.AddApellido | bot/handlers/add_contact.py:25-28 | the stripped text is the surname; the phone is asked next |
| AddContact.AddTelefono | bot/handlers/add_contact.py:30-33 | the phone is stored cleaned; the DNI is asked next |
| AddContact.AddDni | bot/handlers/add_contact.py:35-42 | the stripped text is the DNI; the status is asked next |
| AddContact.SaveAndReturn | bot/handlers/add_contact.py:63-71 | the row is upserted once, the reply carries the upsert's outcome and the row's line, and going back to the menu releases the reservation |
| AddContact.AddEstado | bot/handlers/add_contact.py:44-71 | "contactar…" saves nothing, awaits a note with Estado "Contactar Luego" and stays; any other text upserts the typed contact with the classified status and no note, then goes back to the menu |
| AddContact.AddEstadoObservacion | bot/handlers/add_contact.py:73-87 | with no note awaited the conversation ends and nothing changes; otherwise the contact is saved as "Contactar Luego" with the stripped note, the flag dropped, then the menu; it is reached only through the intended dispatch `AddContact.AddEstadoStepIntended` (see "## Findings") |
| AddContact.AddEstadoDispatch | bot/handlers/add_contact.py:117-120 | a message reaches a status-step handler exactly when it is a text that is not a command, and that handler is always `add_estado`: `add_estado_observacion`, listed second with the same filter, is never chosen |
| AddContact.NoteClassifiedAsStatus | bot/handlers/add_contact.py:44-61 | as dispatched, no typed text is saved as "Contactar Luego", and the note "llamar el lunes" saves the contact as "Pendiente" with no note, not as "Contactar Luego" with that note |
| AddContact.AddEstadoStep | bot/handlers/add_contact.py:117-120 | the status step as dispatched: a text the classifier saves is upserted with a status other than "Contactar Luego" and no note, even when a note was awaited, and the awaited flag is left as it was; "contactar…" asks for the note again |
| AddContact.AddEstadoStepIntended | bot/handlers/add_contact.py:73-87 | the status step as intended: an awaited note is upserted with the contact as "Contactar Luego" with the stripped text as its note, and the flag dropped; any other text is handled by `add_estado` |
| AddContact.ContactarLuegoDialog | bot/handlers/add_contact.py:52-87 | with the intended dispatch, "contactar…" followed by a note upserts the contact as "Contactar Luego" with that note |
| AddContact.OnCancelCallback | bot/handlers/add_contact.py:96-104 | "CANCEL:CONFIRM" releases the reservation and returns to the menu; any other answer changes nothing and keeps waiting |
| AddContact.SavedTwice | bot/handlers/add_contact.py:63-65 | saving the same typed contact twice reports "updated" the second time and does not grow the list |
| Admin.ParseAddText | bot/handlers/admin.py:78-87 | an empty stripped text and a first word that is not all digits are re-prompted with their own messages; otherwise the id is the first word's number and the name's words are the remaining words |
| Admin.NameWords | bot/handlers/admin.py:87 | the name made of the remaining words splits back into exactly those words and has nothing to strip |
| Admin.AddTextRoundTrip | bot/handlers/admin.py:78-87 | an id followed by a name's words, separated by single spaces, is read back as that id and that name |
| Admin.ParseDelText | bot/handlers/admin.py:95-99 | an id is read exactly when the whole stripped text is digits, and is its number; otherwise the kind's retry message |
| Admin.DelTextRoundTrip | bot/handlers/admin.py:95-99 | an id written out with any surrounding whitespace is read back as that id |
| Admin.AddIdText | bot/handlers/admin.py:77-91 | bad input asks again in the same state and writes nothing; an id is appended to (or renamed in) the tab and the reply shows "id - name" or the id alone, ending the conversation |
| Admin.DelIdText | bot/handlers/admin.py:94-105 | input that is not an id asks again in the same state without writing; an id is removed from the tab and the reply says whether it was there |
| Admin.DelIdNumber | bot/handlers/admin.py:99-105 | the removal of a parsed id: absent leaves the tab alone, present deletes that row, and the reply follows the result |
| Admin.AddedIsRegistered | bot/handlers/admin.py:86-88 | for an id carried by at most one row: after an add the id is registered, under the typed name when one was typed, and every other id keeps its registration and name |
| BotUnico.NormAll | bot_unico.py:76 | one normalised header per header, in order |
| BotUnico.FirstAlias | bot_unico.py:77-90 | no position exactly when no alias is present; otherwise the last position of the first alias present, in order of preference |
| BotUnico.Mapping | bot_unico.py:88-93 | each of the five columns gets the position of its first alias present |
| BotUnico.HeaderMapping | bot_unico.py:74-94 | a mapping gives five positions, Nombre, Apellido and Teléfono always present, every position inside the header |
| BotUnico.HeaderMappingFails | bot_unico.py:89-92 | the mapping fails exactly when one of Nombre, Apellido, Teléfono has none of its aliases among the normalised headers |
| BotUnico.FirstAliasNamesColumn | bot_unico.py:76-90 | the header at a found position normalises to one of that column's aliases |
| BotUnico.HeaderMappingPicks | bot_unico.py:77-93 | a column is unmapped exactly when none of its aliases is present, and otherwise mapped to the last position of its first alias present |
| BotUnico.Get | bot_unico.py:113-114 | a mapped cell is stripped |
| BotUnico.NormEstado | bot_unico.py:122-128 | the normalised status is always one of Aceptado, Rechazado, Pendiente |
| BotUnico.MappedRowIsStd | bot_unico.py:116-130 | a row read through the mapping has five stripped cells and a known status |
| BotUnico.MappedRows | bot_unico.py:111-130 | one mapped row per body row, in order |
| BotUnico.MapRows | bot_unico.py:111-131 | the loop reads each row below the header through the mapping |
| BotUnico.ReadLista | bot_unico.py:99-131 | the read is `BotUnico.ReadListaOf`, the `read_lista` transform, on the file's rows (its cases are stated by `BotUnico.ReadListaShape`) |
| BotUnico.ReadListaShape | bot_unico.py:99-131 | an empty file gives no rows; below the standard header the rows come unchanged; otherwise one five-cell standard row per data row, unless a required column is missing |
| BotUnico.NormEstadoFixed | bot_unico.py:122-128 | the three statuses read back as themselves |
| BotUnico.FilterByStatus | bot_unico.py:136-137 | a row is kept exactly when it has a fifth cell equal to the status, and nothing is added |
| BotUnico.ContactRow | bot_unico.py:147-148 | the Google row has the Google header's width and no notes |
| BotUnico.ContactRowInverse | bot_unico.py:147-148 | the standard row can be read back out of its Google row: nothing is lost or moved |
| BotUnico.GenContacts | bot_unico.py:142-150 | the export is the Google header then one row per roster row, failing on a row that has not five cells |
| BotUnico.RosterExports | bot_unico.py:142-150 | rows of five cells always export: the header, then one row per roster row, each giving back its source row |
| BotUnico.CardOf | bot_unico.py:183-189 | a card is five lines |
| BotUnico.MakerFor | bot_unico.py:184-189 | the card writer writes exactly the card of the row and its number |
| BotUnico.VCardsLength | bot_unico.py:175-189 | five lines per row that gets a card, none for a skipped row |
| BotUnico.CountAfterEmitted | bot_unico.py:180-182 | the counter goes up by one per card written |
| BotUnico.VCardsSplit | bot_unico.py:173-189 | cards are numbered by the cards written before them: the cards of a + b are those of a, then those of b numbered on |
| BotUnico.GenVcard | bot_unico.py:155-190 | an empty file gives no lines; otherwise the cards of the source rows, two-column or read through `read_lista` |
| BotUnico.WriteVCards | bot_unico.py:173-189 | the loop skips rows without a phone and numbers the cards it writes |
| BotUnico.ParsePopArgs | bot_unico.py:373-385 | fewer than three arguments give the usage; otherwise the person is the first three, a fourth Aceptado/Rechazado is the status (default Aceptado) and any other fourth the path |
| BotUnico.PopArgsRoundTrip | bot_unico.py:377-385 | arguments written as person, status and path read back as such; a path in the status's place is the path with the default status |
| BotUnico.FirstEqual | bot_unico.py:390-391 | the position of the first row equal to the searched one, -1 exactly when there is none |
| BotUnico.PopAsWrittenMissesRoster | bot_unico.py:388-396 | as written, on rows of five cells the four-cell search never finds the person |
| BotUnico.PopAsWrittenExample | bot_unico.py:388-396 | a concrete pending person the update as written does not find and the intended one moves |
| BotUnico.FirstPending | bot_unico.py:388-390 | the first pending row of the person, -1 when they have none |
| BotUnico.PopPendienteMoves | bot_unico.py:388-393 | the intended update finds the person exactly when they have a pending row, keeps every other row in order, and ends with their row under the new status |
| BotUnico.CmdPopPendientes | bot_unico.py:372-396 | usage for too few arguments; a failed read is reported; no pending row writes nothing; otherwise the file is rewritten once with the row moved |
| BotUnico.PageLines | bot_unico.py:279 | one line per row of the page, each the `BotUnico.FormatPersona` (`_format_persona`, bot_unico.py:206-207) of its row, failing exactly when some row cannot be formatted |
| BotUnico.ShowRowsNavigates | bot_unico.py:265-295 | for the view `BotUnico.ShowRows` builds, the pages list every row once in order; the page shown exists, an existing page is kept, and the previous/next buttons exist exactly away from the ends and lead to the neighbouring page |
| BotUnico.BlocksAreChunks | bot_unico.py:331-338 | the messages are the twenty-line chunks joined: every line sent once, in order, none holding more than twenty |
| BotUnico.BlockPosition | bot_unico.py:332-336 | the position within the block advances by one, wrapping at every twentieth line |
| BotUnico.SendBlocks | bot_unico.py:331-338 | the send loop sends exactly the blocks of the lines |
| BotUnico.CmdGetLista | bot_unico.py:324-338 | a failed read is reported; no rows answers "La lista está vacía."; otherwise every row formatted, twenty to a message |
| BotUnico.ShortLines | bot_unico.py:347 | one "tel: nombre, apellido" line per row |
| BotUnico.SendByStatus | bot_unico.py:340-352 | no rows answers "No hay personas <titulo>."; otherwise an announcement, then the short lines twenty to a message |
| BotUnico.CmdGetByStatus | bot_unico.py:354-370 | the rows of the file with exactly that status, listed under the title |
| BotUnico.MenuDispatch | bot_unico.py:238-263 | a status listing is chosen exactly for data starting "MENU:FILTRO:", and its status is the rest of the data |
| BotUnico.FilterButtonDispatch | bot_unico.py:243-247 | a filter button dispatches to exactly its status |
| BotUnico.PageOf | bot_unico.py:300-302 | a page is read only from data with a colon followed by digits |
| BotUnico.PageOfButton | bot_unico.py:284-302 | the page buttons' data reads back as the page it was written for |
| BotUnico.Basename | bot_unico.py:412 | the base name is a slash-free suffix of the path |
| BotUnico.BasenameOfJoin | bot_unico.py:412 | the base name of a path is its last component |
| BotUnico.ParseGenContactsArgs | bot_unico.py:399-402 | the usage exactly for fewer than two arguments; otherwise the input and output paths |
| BotUnico.ParseVcardArgs | bot_unico.py:407-410 | the usage exactly for fewer than three arguments; otherwise label, input and output |
| BotUnico.CmdGenContacts | bot_unico.py:398-404 | usage writes nothing; otherwise the output is written once with the Google rows and named in the reply, and a failed read writes nothing |
| BotUnico.CmdVcard | bot_unico.py:406-412 | usage writes nothing; otherwise the card lines of the input under the label, and a reply naming the label and the output's base name |
| Excel.ColumnsNamed | Funcionalidades/excel.py:17-25 | the position `indices` gives "Nombre" is column 0 and the one it gives "Estado" is column 4 |
| Excel.Select | Funcionalidades/excel.py:31-35 | the records the loop keeps are never more than it reads |
| Excel.SelectMembership | Funcionalidades/excel.py:31-35 | a record is kept exactly when it is one of the file's and passes the column test (both directions) |
| Excel.SelectConcat | Funcionalidades/excel.py:31-35 | the loop treats each record on its own: selecting from two runs of records is selecting from each, in order |
| Excel.Scan | Funcionalidades/excel.py:31-35 | the loop raises IndexError exactly when some record lacks the cell the loop looks at; otherwise it returns exactly the records that pass |
| Excel.SelectSnoc | Funcionalidades/excel.py:47-49 | one loop step: the records kept so far, then the next one if it passes |
| Excel.ScanFile | Funcionalidades/excel.py:28-36 | the loop over the file's records returns the selection, or IndexError at a record without the cell |
| Excel.ReadLista | Funcionalidades/excel.py:27-36 | `readLista` keeps every record whose first cell is not exactly "Nombre", in order, and fails on a blank record |
| Excel.SetLista | Funcionalidades/excel.py:38-41 | `setLista` leaves the file holding exactly the given records, written once |
| Excel.SetThenRead | Funcionalidades/excel.py:27-41 | writing a list and reading it back gives the list without its "Nombre" records |
| Excel.GetByEstado | Funcionalidades/excel.py:43-68 | a status filter returns the records whose Estado cell equals the literal, in order, or IndexError |
| Excel.GetPendientes | Funcionalidades/excel.py:43-50 | the records whose Estado is exactly "Pendiente" |
| Excel.GetAceptados | Funcionalidades/excel.py:52-59 | the records whose Estado is exactly "Aceptado" |
| Excel.GetRechazados | Funcionalidades/excel.py:61-68 | the records whose Estado is exactly "Rechazado" |
| Excel.StatusListsPartition | Funcionalidades/excel.py:43-68 | the three status lists are disjoint: a record appears in the list of its own Estado and in no other |
| Contactos.TranslationAligned | Funcionalidades/contactos.py:3-20 | `trad_columna` has exactly five keys, the k-th goes to Google column k as `google_indices` places it, and none goes to Notes |
| Contactos.TargetColumn | Funcionalidades/contactos.py:12-20 | each roster column's Google target sits at its own position of `google_headers` |
| Contactos.Translated | Funcionalidades/contactos.py:31-34 | a translated row has one cell per Google header and an empty Notes cell |
| Contactos.TranslatedByName | Funcionalidades/contactos.py:28-34 | every pair of `trad_columna` is honoured: the Google column holds the cell under the roster column's last occurrence in the header, or "" when the header lacks it |
| Contactos.Rows | Funcionalidades/contactos.py:30-35 | the loop succeeds exactly when every record has the named cells, and then yields one translated row per record, in order; otherwise IndexError |
| Contactos.ContactsOf | Funcionalidades/contactos.py:22-40 | an empty file fails: `next(reader)` raises StopIteration, which the coroutine hands to its caller as RuntimeError; otherwise the output is the Google header and one translated row per later record, or IndexError exactly when some record is too short |
| Contactos.TranslateRow | Funcionalidades/contactos.py:31-34 | the inner loop returns the translated row, or IndexError when a named column lies past the record's end |
| Contactos.Translate | Funcionalidades/contactos.py:24-35 | the outer loop returns what `ContactsOf` specifies |
| Contactos.GenContacts | Funcionalidades/contactos.py:22-40 | on success the output file holds the header and the translated rows, written once; on failure it is untouched and the error is returned |
| Fisc0625.PhoneIdempotent | Funcionalidades/fisc0625.py:29 | removing whitespace and dashes twice removes nothing more, and a telephone without them is kept whole |
| Fisc0625.CardFor | Funcionalidades/fisc0625.py:22-30 | a card is five lines, opening with BEGIN:VCARD and VERSION:4.0 and closing with END:VCARD |
| Fisc0625.ShortRecordIsCardStart | Funcionalidades/fisc0625.py:21-29 | a record lacking a cell leaves exactly the lines of its card written before the failing read |
| Fisc0625.RecordWriter | Funcionalidades/fisc0625.py:22-30 | the writer of `genVcard` writes five lines, the record's card, for every complete record |
| Fisc0625.ExportFails | Funcionalidades/fisc0625.py:21-30 | the export fails exactly when some record lacks its name or telephone cell |
| Fisc0625.ExportLength | Funcionalidades/fisc0625.py:21-30 | a finished export holds five lines per record |
| Fisc0625.CardAt | Funcionalidades/fisc0625.py:19-30 | lines 5k to 5k+5 are record k's card, numbered from the empty names of the records before it; no header record is skipped |
| Fisc0625.WrittenCard | Funcionalidades/fisc0625.py:19-30 | card k of the file is `CardFor` record k, counted after the empty names before it |
| Fisc0625.BlankNumbering | Funcionalidades/fisc0625.py:24-26 | empty names are numbered 1, 2, ... in file order: the FN line of an empty-named record shows how many empty names there are up to it, never more than there are in all |
| Fisc0625.BlanksSplit | Funcionalidades/fisc0625.py:24-25 | the count of empty names adds up over a split of the records |
| Fisc0625.ExportStep | Funcionalidades/fisc0625.py:21-30 | one loop iteration: the lines so far, then the record's lines, then the rest counted from the new `conteo` |
| Fisc0625.WriteRecord | Funcionalidades/fisc0625.py:22-30 | the writes for one record are its card, or the lines before the first cell it lacks |
| Fisc0625.GenVcard | Funcionalidades/fisc0625.py:4-30 | the output holds a card per input record, in order, each empty name taking the next number; a record lacking a cell ends the file after its lines and reports the failure |

## Left out

- Telegram transport and rendering are not modelled: replies, inline keyboards, Markdown, `send_contact`, `reply_document`, `answer()` and `BadRequest` handling. A handler's reply is returned as a value (text, lines or a page view), and a denied or finished handler returns its next conversation state.
- Concurrency between operators is not modelled. The store is one sequential `Worksheet`, and two handlers never interleave.
- Exceptions raised halfway through a listing are not modelled: a message that fails to send, or a network error from the spreadsheet.
- File and spreadsheet I/O are not modelled. This covers gspread (bot/services/sheets.py), CSV quoting, encodings and the BOM, `BytesIO`, timestamped file names, `os.makedirs` and `_ensure_csv` (bot_unico.py:197-200). Each file or tab is a `Worksheet` whose table is its rows, header included.
- `_read_csv_rows` and `_write_csv_rows` (bot/services/lista.py) are not modelled: they are the file I/O above. `_col_number_from_idx` (bot/services/lista.py:86) is left out because the model writes whole rows, not A1 ranges.
- Environment variables (ADMIN_USER_IDS, ALLOWED_USER_IDS, the sheet names, CSV_DEFAULT) are not read: they are passed in as parameters. The process setup is left out: bot/main.py, bot/config.py, bot/errors.py, and `handle_error` and `main` in bot_unico.py (417 onward). bot/states.py enters the model only as constants.
- `Text.Norm` folds only the Latin-1 accented letters to their base letter. Python's NFKD decomposition covers all of Unicode, which the model does not.
- Pagination.IsWordChar: `\w` covers ASCII and Latin-1 word characters only; Python's `re` counts every Unicode letter and digit as a word character, so the word boundaries `\b` around a number can differ for text in other scripts.
- Pagination.SearchNumber: `\d` is read as the ASCII digits 0-9 and `\b` through `Pagination.IsWordChar`. Python's `re` also accepts other Unicode decimal digits. The same narrowing holds for the dashed patterns of `Pagination.CleanEstadoForDisplay`.
- Exports.TelUri: `[^\d+]` keeps only the ASCII digits and '+'. Python's `re` would also keep other Unicode decimal digits (bot/services/exports.py:39, bot_unico.py:183).
- Text.Lower: lower-cases only ASCII and Latin-1 capitals, one character for one. Python's `str.lower()` covers all of Unicode and can change the length ('İ' becomes two characters), so the length-keeping contract holds only for this narrowed alphabet.
- Reservation.ReconcileExact and Reservation.ReleaseExact are stated for a known owner. With no owner in the session, the first kept row whose status carries a tag supplies one, and later rows are then checked against it. For that case only the soundness lemmas (`Reservation.ReconcileSound`, `Reservation.ReleaseSound`) are proved.
- `Text.IsDigits` accepts only the ASCII digits. Python's `str.isdigit` also accepts other Unicode digits.
- BotUnico.PageOf: the page is read only from plain ASCII digits. The signs, spaces and underscores that Python's `int()` also accepts are rejected.
- Page sizes are required to be positive in the chunking and paging members (`requires size > 0`, `requires pageSize > 0`). The source only ever passes a positive constant or a stored page size. A size of 0 would make `range` raise, and that path is not modelled.
- The single-file bot's error for a missing column (bot_unico.py:92) keeps the column's name but leaves out the header list that Python appends after "Encabezados:".
- The `except` branch of `_format_persona` (bot/utils/pagination.py:40-41), which answers "Fila inválida", is left out. The row is padded to six cells first, so no cell access in the `try` can fail.
- Roles.AppendRegisters, Roles.RemoveUnregisters, Roles.RemoveFound and Admin.AddedIsRegistered are stated for an id carried by at most one row of its tab. The source accepts a tab edited by hand with the same id on several rows. Then `_remove_id_from_sheet` deletes only the first of them and answers true while the id stays registered (`Roles.RemoveLeavesDuplicate`). A rename rewrites the first row, but the registry keeps the last row's name (`Roles.RenameHiddenByLaterRow`).
- Reservation.TaggedFor is the source's `startswith` test (bot/handlers/edit.py:55,106), so an owner whose label is a prefix of another's (owner "12" and "En contacto - 123") also keeps and releases the other's rows. Menu.ClaimThenRelease requires that no unclaimed row's status starts with "En contacto - " followed by the claimant's label, so it does not cover that case.
- `get_admin_ids` and `get_allowed_ids` (bot/services/roles.py:68-72) are not separate members: they are the key sets (`.Keys`) of the maps that `Roles.AdminsMap` and `Roles.AllowedMap` build.
- Several handlers of bot/handlers/menu.py are not modelled because they only show a prompt or a menu, or forward to a modelled operation:
  - `cmd_start` (146), `on_menu_home` (150) and `on_page_callback` (155);
  - `start_list_pagination` (169), `show_rows_with_pagination` (176) and `on_list_edit_start` (202);
  - the admin-panel, cancel-reservation, confirm/keep, `MENU:EDIT` and export branches of `on_menu_callback` (224-400). Its `MENU:FILTRO:Pendiente` branch is modelled: `Menu.ShowHeldBatch` with a batch held, `Menu.PreviewPendientes` without one.
- bot/handlers/edit.py: `obs_cancel_cb` (266-272) only shows a message and ends the note dialog. `send_reserved_as_contacts` (368-391) sends one Telegram contact per row, and the transport is not modelled.
- bot/handlers/commands.py: `cmd_gen_contacts` and `cmd_vcard` (69-82) only send the files the modelled exports build. `cmd_whoami` (85-90) only echoes the user id.
- bot/handlers/add_contact.py: `add_cancel` (89-94) only ends the dialog. `build_add_conv` (106 onward) is the wiring of the conversation: it is represented only by the states each modelled step returns. Both `ADD_ESTADO` handlers take any typed text, and the status keyboard's buttons send text too. The order in which the conversation tries them is `AddContact.AddEstadoDispatch`, and what that order does to the "Contactar Luego" note is a row under "## Findings".
- bot/handlers/admin.py: `add_start`, `del_start`, `add_admin_start` and `del_admin_start` (13-57), and `admin_cancel_cb` (60-74), only show prompts and set the next state.
- `descargarCSV` (Funcionalidades/excel.py:4) downloads the sheet over the network and is left out.

## Findings

| source | as written | input that shows it | evidently intended | confidence | as-written member | corrected member |
|---|---|---|---|---|---|---|
| bot_unico.py:388-393 | `/pop_pendientes` searches the rows that `read_lista` returns for the four cells `[nombre, apellido, telefono, "Pendiente"]`. A roster read through the flexible headers has rows of five cells (the DNI sits before the status), so the search never matches, and the command always answers that the person is not pending. | a roster whose only data row is `["Ana", "Paz", "1155", "30111222", "Pendiente"]`, with the command `/pop_pendientes Ana Paz 1155 Aceptado` | move the person's first pending row to the end of the roster with the new status, keeping their DNI | not executed | BotUnico.PopAsWrittenMissesRoster, BotUnico.PopAsWrittenExample | BotUnico.PopPendienteMoves (BotUnico.PopPendiente, used by BotUnico.CmdPopPendientes) |
| bot/handlers/add_contact.py:117-120 | The status step lists `add_estado` and then `add_estado_observacion`, both with the filter `TEXT & ~COMMAND`. The conversation runs the first listed handler that accepts a message, so every text goes to `add_estado`, and the note asked for after "Contactar Luego" (52-59) is classified as a status. | choose "Contactar Luego", then type the note `llamar el lunes`: the contact is saved as "Pendiente" with no note | the awaited note is saved with the contact as "Contactar Luego" (73-87) | not executed | AddContact.AddEstadoStep, AddContact.NoteClassifiedAsStatus | AddContact.AddEstadoStepIntended (with AddContact.AddEstadoObservacion and AddContact.ContactarLuegoDialog) |
