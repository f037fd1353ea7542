/**
 * One operator's conversation state (`context.user_data`). A key the handlers pop or never set
 * is held as its empty value ("", [] or None); everywhere the handlers read these keys an absent
 * key and an empty value behave alike, except for the page size, whose default depends on the
 * reader, so it is an Option.
 */
module UserData {
  import opened Wrappers
  import opened Lista

  /** A preview key as `_row_key` builds it: the entries "tel" and "dni". */
  type Key = map<string, string>

  class Session {
    /** The claimed batch: padded copies of the claimed rows, their store indices and the tag owner. */
    var reservedRows: seq<Row>
    var reservedIndices: seq<int>
    var reservedOwner: string
    /** What the Pendiente preview showed: business keys, store indices and batch size (0 = unset). */
    var previewKeys: seq<Key>
    var previewIndices: seq<int>
    var previewLimit: int
    /** The editor: the rows on screen, the page, the page size, where the rows came from, its title. */
    var editBaseRows: seq<Row>
    var editPage: int
    var editPageSize: Option<int>
    var editSource: string
    var editTitle: string
    var editSelectedIdx: Option<int>
    /** The row waiting for a "Contactar Luego" note. */
    var obsTargetIndex: Option<int>
    /** The add-contact dialog: the fields typed so far and whether a note is awaited. */
    var newContact: map<string, string>
    var awaitAddObs: bool

    constructor ()
      ensures reservedRows == [] && reservedIndices == [] && reservedOwner == ""
      ensures previewKeys == [] && previewIndices == [] && previewLimit == 0
      ensures editBaseRows == [] && editPage == 0 && editPageSize == None && editSource == "" && editTitle == ""
      ensures editSelectedIdx == None && obsTargetIndex == None
      ensures newContact == map[] && !awaitAddObs
    {
      reservedRows := [];
      reservedIndices := [];
      reservedOwner := "";
      previewKeys := [];
      previewIndices := [];
      previewLimit := 0;
      editBaseRows := [];
      editPage := 0;
      editPageSize := None;
      editSource := "";
      editTitle := "";
      editSelectedIdx := None;
      obsTargetIndex := None;
      newContact := map[];
      awaitAddObs := false;
    }
  }
}
