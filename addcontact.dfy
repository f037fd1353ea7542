/**
 * The add-contact dialog (bot/handlers/add_contact.py): the fields typed step by step into the
 * session, the status classifier, the save through the roster upsert, the "Contactar Luego"
 * note and the cancel confirmation.
 *
 * A handler's next conversation state is an `Option<int>`: `None` is a handler that returns
 * nothing, which leaves the conversation where it is.
 */
module AddContact {
  import opened Wrappers
  import opened Seqs
  import opened Text
  import opened Config
  import opened Lista
  import opened SheetStore
  import opened UserData
  import opened Reservation
  import opened Menu
  import opened Pagination

  /** What the typed status asks for: a save with that status, or a note first ("contactar…"). */
  datatype Choice = Save(estado: string) | AskNote

  /**
   * The `add_estado` classifier: the text is stripped and lower-cased, then classified by prefix.
   */
  function ClassifyEstado(text: string): (c: Choice)
    ensures c.Save? ==> c.estado in [PENDIENTE, ACEPTADO, RECHAZADO, NUMERO_INCORRECTO]
  {
    ClassifyLowered(Lower(Trim(text)))
  }

  /** "acept…", "rech…", "número…"/"numero…", "contactar…", and "Pendiente" for anything else. */
  function ClassifyLowered(e: string): (c: Choice)
    ensures c.Save? ==> c.estado in [PENDIENTE, ACEPTADO, RECHAZADO, NUMERO_INCORRECTO]
  {
    if StartsWith(e, "acept") then Save(ACEPTADO)
    else if StartsWith(e, "rech") then Save(RECHAZADO)
    else if StartsWith(e, "n\U{fa}mero") || StartsWith(e, "numero") then Save(NUMERO_INCORRECTO)
    else if StartsWith(e, "contactar") then AskNote
    else Save(PENDIENTE)
  }

  /** Lower-casing maps a letter of a lowered string to itself and never makes or removes a blank. */
  lemma LowerCharFacts(c: char)
    ensures LowerChar(LowerChar(c)) == LowerChar(c)
    ensures IsSpace(LowerChar(c)) <==> IsSpace(c)
  {
  }

  /** Lower-casing a stripped string keeps it stripped, and lower-casing again changes nothing. */
  lemma LowerStripped(t: string)
    requires Stripped(t)
    ensures Stripped(Lower(t)) && Lower(Lower(t)) == Lower(t)
  {
    var e := Lower(t);
    forall i | 0 <= i < |t|
      ensures LowerChar(e[i]) == e[i] && (IsSpace(e[i]) <==> IsSpace(t[i]))
    {
      LowerCharFacts(t[i]);
    }
  }

  /** The canonical form of a text is its own canonical form. */
  lemma CanonicalIdempotent(text: string)
    ensures Lower(Trim(Lower(Trim(text)))) == Lower(Trim(text))
  {
    LowerStripped(Trim(text));
  }

  /** The text's case and surrounding blanks do not matter: classifying the canonical form gives the same answer. */
  lemma ClassifyCanonical(text: string)
    ensures ClassifyEstado(Lower(Trim(text))) == ClassifyEstado(text)
  {
    CanonicalIdempotent(text);
  }

  /** The canonical form of a stripped label whose characters lower-case to e. */
  lemma CanonicalOf(lbl: string, e: string)
    requires Stripped(lbl) && |e| == |lbl| && forall i :: 0 <= i < |lbl| ==> LowerChar(lbl[i]) == e[i]
    ensures Lower(Trim(lbl)) == e
  {
  }

  /**
   * The buttons of the status keyboard classify as themselves: "Pendiente", "Aceptado",
   * "Rechazado" and "Número incorrecto" save that status, and "Contactar Luego" asks for a note.
   */
  lemma KeyboardLabels()
    ensures ClassifyEstado(PENDIENTE) == Save(PENDIENTE)
    ensures ClassifyEstado(ACEPTADO) == Save(ACEPTADO)
    ensures ClassifyEstado(RECHAZADO) == Save(RECHAZADO)
    ensures ClassifyEstado(NUMERO_INCORRECTO) == Save(NUMERO_INCORRECTO)
    ensures ClassifyEstado(CONTACTAR_LUEGO) == AskNote
  {
    LabelPendiente();
    LabelAceptado();
    LabelRechazado();
    LabelNumero();
    LabelContactar();
  }

  lemma LabelPendiente()
    ensures ClassifyEstado(PENDIENTE) == Save(PENDIENTE)
  {
    var e := "pendiente";
    forall i | 0 <= i < |PENDIENTE|
      ensures LowerChar(PENDIENTE[i]) == e[i]
    {
    }
    CanonicalOf(PENDIENTE, e);
    PendienteIsDefault();
  }

  /** "pendiente" starts with none of the classifier's prefixes. */
  lemma PendienteIsDefault()
    ensures ClassifyLowered("pendiente") == Save(PENDIENTE)
  {
    var e := "pendiente";
    assert !StartsWith(e, "acept") by { assert e[..5][0] == 'p'; }
    assert !StartsWith(e, "rech") by { assert e[..4][0] == 'p'; }
    assert !StartsWith(e, "n\U{fa}mero") by { assert e[..6][0] == 'p'; }
    assert !StartsWith(e, "numero") by { assert e[..6][0] == 'p'; }
    assert !StartsWith(e, "contactar") by { assert e[..9][0] == 'p'; }
  }

  lemma LabelAceptado()
    ensures ClassifyEstado(ACEPTADO) == Save(ACEPTADO)
  {
    var e := "aceptado";
    forall i | 0 <= i < |ACEPTADO|
      ensures LowerChar(ACEPTADO[i]) == e[i]
    {
    }
    CanonicalOf(ACEPTADO, e);
    AceptadoLowered();
  }

  /** "aceptado" starts with "acept", the first prefix tried. */
  lemma AceptadoLowered()
    ensures ClassifyLowered("aceptado") == Save(ACEPTADO)
  {
    var e := "aceptado";
    assert e[..5] == "acept";
  }

  lemma LabelRechazado()
    ensures ClassifyEstado(RECHAZADO) == Save(RECHAZADO)
  {
    var e := "rechazado";
    forall i | 0 <= i < |RECHAZADO|
      ensures LowerChar(RECHAZADO[i]) == e[i]
    {
    }
    CanonicalOf(RECHAZADO, e);
    RechazadoLowered();
  }

  /** "rechazado" starts with "rech" and not with "acept". */
  lemma RechazadoLowered()
    ensures ClassifyLowered("rechazado") == Save(RECHAZADO)
  {
    var e := "rechazado";
    assert !StartsWith(e, "acept") by { assert e[..5][0] == 'r'; }
    assert e[..4] == "rech";
  }

  lemma LabelNumero()
    ensures ClassifyEstado(NUMERO_INCORRECTO) == Save(NUMERO_INCORRECTO)
  {
    var e := "n\U{fa}mero incorrecto";
    forall i | 0 <= i < |NUMERO_INCORRECTO|
      ensures LowerChar(NUMERO_INCORRECTO[i]) == e[i]
    {
    }
    CanonicalOf(NUMERO_INCORRECTO, e);
    NumeroLowered();
  }

  /** "n\U{fa}mero incorrecto" starts with "n\U{fa}mero" and with neither earlier prefix. */
  lemma NumeroLowered()
    ensures ClassifyLowered("n\U{fa}mero incorrecto") == Save(NUMERO_INCORRECTO)
  {
    var e := "n\U{fa}mero incorrecto";
    assert !StartsWith(e, "acept") by { assert e[..5][0] == 'n'; }
    assert !StartsWith(e, "rech") by { assert e[..4][0] == 'n'; }
    assert e[..6] == "n\U{fa}mero";
  }

  lemma LabelContactar()
    ensures ClassifyEstado(CONTACTAR_LUEGO) == AskNote
  {
    var e := "contactar luego";
    forall i | 0 <= i < |CONTACTAR_LUEGO|
      ensures LowerChar(CONTACTAR_LUEGO[i]) == e[i]
    {
    }
    CanonicalOf(CONTACTAR_LUEGO, e);
    ContactarAsksNote();
  }

  /** "contactar luego" starts with "contactar" and with none of the earlier prefixes. */
  lemma ContactarAsksNote()
    ensures ClassifyLowered("contactar luego") == AskNote
  {
    var e := "contactar luego";
    assert !StartsWith(e, "acept") by { assert e[..5][0] == 'c'; }
    assert !StartsWith(e, "rech") by { assert e[..4][0] == 'c'; }
    assert !StartsWith(e, "n\U{fa}mero") by { assert e[..6][0] == 'c'; }
    assert !StartsWith(e, "numero") by { assert e[..6][0] == 'c'; }
    assert e[..9] == "contactar";
  }

  /** A field typed so far, `""` when it was never typed (`d.get(name, "")`). */
  function Field(d: map<string, string>, name: string): string {
    if name in d then d[name] else ""
  }

  /** The row the dialog saves: the four typed fields, the status and the note. */
  function ContactRow(d: map<string, string>, estado: string, obs: string): (row: Row)
    ensures |row| == NCOLS && Pad6(row) == row
    ensures row[ESTADO] == estado && row[OBSERVACION] == obs
    ensures row[NOMBRE] == Field(d, "Nombre") && row[APELLIDO] == Field(d, "Apellido")
    ensures row[TELEFONO] == Field(d, "Tel\U{e9}fono") && row[DNI] == Field(d, "DNI")
  {
    [Field(d, "Nombre"), Field(d, "Apellido"), Field(d, "Tel\U{e9}fono"), Field(d, "DNI"), estado, obs]
  }

  /** The confirmation sent after a save, followed by the saved row's line as the editor shows it. */
  function SavedReply(outcome: Outcome, persona: string): string {
    var verb := if outcome == Updated then "actualizado" else "agregado";
    "\U{2705} Contacto " + verb + "\n\n" + persona
  }

  /** The confirmation says "actualizado" exactly when the upsert replaced a row, else "agregado". */
  lemma SavedReplyVerb(outcome: Outcome, persona: string)
    ensures StartsWith(SavedReply(outcome, persona), "\U{2705} Contacto actualizado") <==> outcome == Updated
    ensures StartsWith(SavedReply(outcome, persona), "\U{2705} Contacto agregado") <==> outcome == New
  {
    var reply := SavedReply(outcome, persona);
    var head := "\U{2705} Contacto ";
    assert reply[..|head|] == head;
    assert reply[|head| + 1] == if outcome == Updated then 'c' else 'g';
  }

  // ---------------------------------------------------------------------------------------
  // The dialog's steps
  // ---------------------------------------------------------------------------------------

  /** `add_start`: an empty contact; the name comes next. */
  method AddStart(s: Session) returns (next: Option<int>)
    modifies s`newContact
    ensures s.newContact == map[] && next == Some(ADD_NOMBRE)
  {
    s.newContact := map[];
    next := Some(ADD_NOMBRE);
  }

  /** `add_nombre`: the stripped text is the name; the surname comes next. */
  method AddNombre(s: Session, text: string) returns (next: Option<int>)
    modifies s`newContact
    ensures s.newContact == old(s.newContact)["Nombre" := Trim(text)] && next == Some(ADD_APELLIDO)
  {
    s.newContact := s.newContact["Nombre" := Trim(text)];
    next := Some(ADD_APELLIDO);
  }

  /** `add_apellido`: the stripped text is the surname; the phone comes next. */
  method AddApellido(s: Session, text: string) returns (next: Option<int>)
    modifies s`newContact
    ensures s.newContact == old(s.newContact)["Apellido" := Trim(text)] && next == Some(ADD_TELEFONO)
  {
    s.newContact := s.newContact["Apellido" := Trim(text)];
    next := Some(ADD_TELEFONO);
  }

  /** `add_telefono`: the phone is kept cleaned of blanks and dashes; the DNI comes next. */
  method AddTelefono(s: Session, text: string) returns (next: Option<int>)
    modifies s`newContact
    ensures s.newContact == old(s.newContact)["Tel\U{e9}fono" := CleanPhone(text)] && next == Some(ADD_DNI)
  {
    s.newContact := s.newContact["Tel\U{e9}fono" := CleanPhone(text)];
    next := Some(ADD_DNI);
  }

  /** `add_dni`: the stripped text is the DNI; the status comes next. */
  method AddDni(s: Session, text: string) returns (next: Option<int>)
    modifies s`newContact
    ensures s.newContact == old(s.newContact)["DNI" := Trim(text)] && next == Some(ADD_ESTADO)
  {
    s.newContact := s.newContact["DNI" := Trim(text)];
    next := Some(ADD_ESTADO);
  }

  /**
   * Save and go back to the menu: the contact is upserted once, then `cmd_menu` releases the
   * session's reservation. `saved` is the store as the upsert left it.
   */
  method SaveAndReturn(ws: Worksheet, backend: Backend, s: Session, row: Row, isAdmin: bool)
    returns (outcome: Outcome, reply: string, ghost saved: seq<Row>)
    modifies ws, s`reservedRows, s`reservedIndices, s`reservedOwner
    ensures (ReadListaAny(saved), outcome) == Upsert(ReadListaAny(old(ws.table)), Pad6(row))
    ensures reply == SavedReply(outcome, FormatPersona(row))
    ensures s.reservedRows == [] && s.reservedIndices == [] && s.reservedOwner == ""
    ensures ws.table == ReleasedTable(saved, old(s.reservedRows), old(s.reservedIndices), old(s.reservedOwner))
  {
    outcome := AppendContactAny(ws, backend, row);
    saved := ws.table;
    reply := SavedReply(outcome, FormatPersona(row));
    var _ := CmdMenu(ws, s, isAdmin);
  }

  /**
   * `add_estado`. "contactar…" saves nothing: it waits for a note, with the status set to
   * "Contactar Luego", and stays in the status step. Any other text saves the typed contact with
   * the classified status and an empty note, says whether it was added or updated, and returns
   * to the menu.
   */
  method AddEstado(ws: Worksheet, backend: Backend, s: Session, text: string, isAdmin: bool)
    returns (next: Option<int>, outcome: Option<Outcome>, reply: string, ghost saved: seq<Row>)
    modifies ws, s`newContact, s`awaitAddObs, s`reservedRows, s`reservedIndices, s`reservedOwner
    ensures ClassifyEstado(text) == AskNote ==>
      && s.awaitAddObs && s.newContact == old(s.newContact)["Estado" := CONTACTAR_LUEGO]
      && ws.table == old(ws.table) && ws.writes == old(ws.writes) && outcome == None
      && s.reservedRows == old(s.reservedRows) && s.reservedIndices == old(s.reservedIndices)
      && s.reservedOwner == old(s.reservedOwner) && next == Some(ADD_ESTADO)
    ensures ClassifyEstado(text).Save? ==>
      var row := ContactRow(old(s.newContact), ClassifyEstado(text).estado, "");
      && outcome.Some? && (ReadListaAny(saved), outcome.value) == Upsert(ReadListaAny(old(ws.table)), row)
      && reply == SavedReply(outcome.value, FormatPersona(row))
      && ws.table == ReleasedTable(saved, old(s.reservedRows), old(s.reservedIndices), old(s.reservedOwner))
      && s.reservedRows == [] && s.reservedIndices == [] && s.reservedOwner == ""
      && s.newContact == old(s.newContact) && s.awaitAddObs == old(s.awaitAddObs) && next == None
  {
    var choice := ClassifyEstado(text);
    if choice == AskNote {
      s.awaitAddObs := true;
      s.newContact := s.newContact["Estado" := CONTACTAR_LUEGO];
      return Some(ADD_ESTADO), None, "Escrib\U{ed} la *observaci\U{f3}n*:", ws.table;
    }
    var row := ContactRow(s.newContact, choice.estado, "");
    var res;
    res, reply, saved := SaveAndReturn(ws, backend, s, row, isAdmin);
    outcome := Some(res);
    next := None;
  }

  /**
   * `add_estado_observacion`. Without a note awaited it ends the conversation and does nothing
   * else. Otherwise the typed contact is saved as "Contactar Luego" with the stripped text as its
   * note, the flag is dropped and the dialog returns to the menu.
   */
  method AddEstadoObservacion(ws: Worksheet, backend: Backend, s: Session, text: Option<string>, isAdmin: bool)
    returns (next: Option<int>, outcome: Option<Outcome>, ghost saved: seq<Row>)
    modifies ws, s`awaitAddObs, s`reservedRows, s`reservedIndices, s`reservedOwner
    ensures !old(s.awaitAddObs) ==>
      && next == Some(CONVERSATION_END) && outcome == None && unchanged(ws) && unchanged(s)
    ensures old(s.awaitAddObs) ==>
      var obs := Trim(if text.Some? then text.value else "");
      var row := ContactRow(s.newContact, CONTACTAR_LUEGO, obs);
      && outcome.Some? && (ReadListaAny(saved), outcome.value) == Upsert(ReadListaAny(old(ws.table)), row)
      && ws.table == ReleasedTable(saved, old(s.reservedRows), old(s.reservedIndices), old(s.reservedOwner))
      && s.reservedRows == [] && s.reservedIndices == [] && s.reservedOwner == ""
      && !s.awaitAddObs && next == None
  {
    if !s.awaitAddObs {
      return Some(CONVERSATION_END), None, ws.table;
    }
    var obs := Trim(if text.Some? then text.value else "");
    var row := ContactRow(s.newContact, CONTACTAR_LUEGO, obs);
    var res, reply;
    res, reply, saved := SaveAndReturn(ws, backend, s, row, isAdmin);
    s.awaitAddObs := false;
    outcome := Some(res);
    next := None;
  }

  // ---------------------------------------------------------------------------------------
  // Which handler the status step runs
  // ---------------------------------------------------------------------------------------

  /** The two handlers listed for the status step (add_contact.py:117-120), in that order. */
  datatype EstadoHandler = RunAddEstado | RunObservacion

  const ADD_ESTADO_HANDLERS: seq<EstadoHandler> := [RunAddEstado, RunObservacion]

  /** `filters.TEXT & ~filters.COMMAND`, the filter both handlers carry. */
  predicate TextNotCommand(isText: bool, isCommand: bool) {
    isText && !isCommand
  }

  /**
   * The handler the status step runs for a message, as written: the first listed handler whose
   * filter accepts it. Both carry the same filter, so a text always reaches `add_estado`, and
   * `add_estado_observacion` is never run.
   */
  function AddEstadoDispatch(isText: bool, isCommand: bool): (h: Option<EstadoHandler>)
    ensures h.Some? <==> TextNotCommand(isText, isCommand)
    ensures h != Some(RunObservacion)
  {
    var i := FirstWhere(ADD_ESTADO_HANDLERS, (_: EstadoHandler) => TextNotCommand(isText, isCommand));
    if i < 0 then None else Some(ADD_ESTADO_HANDLERS[i])
  }

  /**
   * As dispatched, the note typed after "Contactar Luego" is classified as a status. No text is
   * ever saved as "Contactar Luego", and the note "llamar el lunes" saves the contact as
   * "Pendiente" with no note, where the intended save is "Contactar Luego" with that note.
   */
  lemma NoteClassifiedAsStatus(d: map<string, string>, text: string)
    ensures AddEstadoDispatch(true, false) == Some(RunAddEstado)
    ensures ClassifyEstado(text).Save? ==> ClassifyEstado(text).estado != CONTACTAR_LUEGO
    ensures ClassifyEstado("llamar el lunes") == Save(PENDIENTE)
    ensures ContactRow(d, PENDIENTE, "") != ContactRow(d, CONTACTAR_LUEGO, "llamar el lunes")
  {
    var note := "llamar el lunes";
    assert Stripped(note) by { assert !IsSpace(note[0]) && !IsSpace(note[|note| - 1]); }
    forall i | 0 <= i < |note|
      ensures LowerChar(note[i]) == note[i]
    {
    }
    CanonicalOf(note, note);
    assert !StartsWith(note, "acept") by { assert note[..5][0] == 'l'; }
    assert !StartsWith(note, "rech") by { assert note[..4][0] == 'l'; }
    assert !StartsWith(note, "n\U{fa}mero") by { assert note[..6][0] == 'l'; }
    assert !StartsWith(note, "numero") by { assert note[..6][0] == 'l'; }
    assert !StartsWith(note, "contactar") by { assert note[..9][0] == 'l'; }
    assert ContactRow(d, PENDIENTE, "")[OBSERVACION] != ContactRow(d, CONTACTAR_LUEGO, note)[OBSERVACION];
  }

  /**
   * The status step as the conversation runs it: every text goes to `add_estado`, the note that
   * "Contactar Luego" asked for included. With a note awaited, any text that does not start with
   * "contactar" saves the contact with a classified status and no note, and the flag stays set.
   */
  method AddEstadoStep(ws: Worksheet, backend: Backend, s: Session, text: string, isAdmin: bool)
    returns (next: Option<int>, outcome: Option<Outcome>, ghost saved: seq<Row>)
    modifies ws, s`newContact, s`awaitAddObs, s`reservedRows, s`reservedIndices, s`reservedOwner
    ensures ClassifyEstado(text).Save? ==>
      var row := ContactRow(old(s.newContact), ClassifyEstado(text).estado, "");
      && row[ESTADO] != CONTACTAR_LUEGO && row[OBSERVACION] == ""
      && outcome.Some? && (ReadListaAny(saved), outcome.value) == Upsert(ReadListaAny(old(ws.table)), row)
      && s.awaitAddObs == old(s.awaitAddObs) && next == None
    ensures ClassifyEstado(text) == AskNote ==>
      && s.awaitAddObs && ws.table == old(ws.table) && outcome == None && next == Some(ADD_ESTADO)
  {
    var handler := AddEstadoDispatch(true, false);
    assert handler == Some(RunAddEstado);
    var reply;
    next, outcome, reply, saved := AddEstado(ws, backend, s, text, isAdmin);
  }

  /**
   * The status step as evidently intended: the awaited note goes to `add_estado_observacion`,
   * and every other text to `add_estado`. The note is then saved with the contact as
   * "Contactar Luego".
   */
  method AddEstadoStepIntended(ws: Worksheet, backend: Backend, s: Session, text: string, isAdmin: bool)
    returns (next: Option<int>, outcome: Option<Outcome>, ghost saved: seq<Row>)
    modifies ws, s`newContact, s`awaitAddObs, s`reservedRows, s`reservedIndices, s`reservedOwner
    ensures old(s.awaitAddObs) ==>
      var row := ContactRow(old(s.newContact), CONTACTAR_LUEGO, Trim(text));
      && row[ESTADO] == CONTACTAR_LUEGO && row[OBSERVACION] == Trim(text)
      && outcome.Some? && (ReadListaAny(saved), outcome.value) == Upsert(ReadListaAny(old(ws.table)), row)
      && ws.table == ReleasedTable(saved, old(s.reservedRows), old(s.reservedIndices), old(s.reservedOwner))
      && s.newContact == old(s.newContact) && !s.awaitAddObs && next == None
    ensures !old(s.awaitAddObs) && ClassifyEstado(text).Save? ==>
      var row := ContactRow(old(s.newContact), ClassifyEstado(text).estado, "");
      && outcome.Some? && (ReadListaAny(saved), outcome.value) == Upsert(ReadListaAny(old(ws.table)), row)
      && !s.awaitAddObs && next == None
    ensures !old(s.awaitAddObs) && ClassifyEstado(text) == AskNote ==>
      && s.awaitAddObs && s.newContact == old(s.newContact)["Estado" := CONTACTAR_LUEGO]
      && ws.table == old(ws.table) && outcome == None && next == Some(ADD_ESTADO)
  {
    if s.awaitAddObs {
      next, outcome, saved := AddEstadoObservacion(ws, backend, s, Some(text), isAdmin);
    } else {
      var reply;
      next, outcome, reply, saved := AddEstado(ws, backend, s, text, isAdmin);
    }
  }

  /**
   * The intended dialog saves "Contactar Luego" contacts: from a status step with no note
   * awaited, a status starting "contactar" asks for a note, and the next text is saved as the contact's note with the status "Contactar Luego".
   */
  method ContactarLuegoDialog(ws: Worksheet, backend: Backend, s: Session, status: string, note: string, isAdmin: bool)
    returns (outcome: Option<Outcome>, ghost saved: seq<Row>)
    requires !s.awaitAddObs && ClassifyEstado(status) == AskNote
    modifies ws, s`newContact, s`awaitAddObs, s`reservedRows, s`reservedIndices, s`reservedOwner
    ensures var row := ContactRow(old(s.newContact)["Estado" := CONTACTAR_LUEGO], CONTACTAR_LUEGO, Trim(note));
      && row[OBSERVACION] == Trim(note)
      && outcome.Some? && (ReadListaAny(saved), outcome.value) == Upsert(ReadListaAny(old(ws.table)), row)
  {
    ghost var d := s.newContact;
    ghost var table := ws.table;
    var next;
    next, outcome, saved := AddEstadoStepIntended(ws, backend, s, status, isAdmin);
    assert s.awaitAddObs && s.newContact == d["Estado" := CONTACTAR_LUEGO] && ws.table == table;
    next, outcome, saved := AddEstadoStepIntended(ws, backend, s, note, isAdmin);
  }

  /**
   * `on_cancel_callback`: "CANCEL:CONFIRM" releases the reservation and goes back to the menu;
   * any other answer changes nothing and keeps the conversation waiting.
   */
  method OnCancelCallback(ws: Worksheet, s: Session, data: string, isAdmin: bool) returns (next: Option<int>)
    modifies ws, s`reservedRows, s`reservedIndices, s`reservedOwner
    ensures data == "CANCEL:CONFIRM" ==>
      && ws.table == ReleasedTable(old(ws.table), old(s.reservedRows), old(s.reservedIndices), old(s.reservedOwner))
      && s.reservedRows == [] && s.reservedIndices == [] && s.reservedOwner == "" && next == None
    ensures data != "CANCEL:CONFIRM" ==>
      unchanged(ws) && unchanged(s) && next == Some(CONVERSATION_WAITING)
  {
    if data == "CANCEL:CONFIRM" {
      ReleaseReservation(ws, s);
      var _ := CmdMenu(ws, s, isAdmin);
      return None;
    }
    return Some(CONVERSATION_WAITING);
  }

  /**
   * Whatever the dialog saves is the typed contact: the status step stores the four typed fields
   * with the classified status and an empty note, and a row saved twice in a row is "updated"
   * the second time without growing the list.
   */
  lemma SavedTwice(rows: seq<Row>, d: map<string, string>, text: string)
    requires ClassifyEstado(text).Save?
    ensures var row := ContactRow(d, ClassifyEstado(text).estado, "");
      && Upsert(Upsert(rows, row).0, row).1 == Updated
      && |Upsert(Upsert(rows, row).0, row).0| == |Upsert(rows, row).0|
  {
    UpsertTwice(rows, ContactRow(d, ClassifyEstado(text).estado, ""));
  }
}
