/** Constants of the bot: the roster schema, the export header and the conversation states. */
module Config {

  /** The roster's header row: Nombre, Apellido, Teléfono, DNI, Estado, Observación. */
  const CSV_HEADERS: seq<string> := ["Nombre", "Apellido", "Tel\U{e9}fono", "DNI", "Estado", "Observaci\U{f3}n"]
  const NCOLS: nat := 6

  /** Column positions (the IDX table). */
  const NOMBRE: nat := 0
  const APELLIDO: nat := 1
  const TELEFONO: nat := 2
  const DNI: nat := 3
  const ESTADO: nat := 4
  const OBSERVACION: nat := 5

  /** Header of the Google Contacts export. */
  const GOOGLE_HEADERS: seq<string> := ["Given Name", "Family Name", "Phone 1 - Value", "Labels", "Nickname", "Notes"]

  /** Status literals. */
  const PENDIENTE := "Pendiente"
  const ACEPTADO := "Aceptado"
  const RECHAZADO := "Rechazado"
  const NUMERO_INCORRECTO := "N\U{fa}mero incorrecto"
  const CONTACTAR_LUEGO := "Contactar Luego"
  const EN_CONTACTO := "En contacto"
  const EN_CONTACTO_TAG := "En contacto - "

  /** Conversation states of the add-contact, administration and note dialogs. */
  const ADD_NOMBRE: int := 0
  const ADD_APELLIDO: int := 1
  const ADD_TELEFONO: int := 2
  const ADD_DNI: int := 3
  const ADD_ESTADO: int := 4
  const ADD_CANCEL_CONFIRM: int := 5
  const ADM_ADD_ID: int := 6
  const ADM_DEL_ID: int := 7
  const ADM_ADM_ADD_ID: int := 8
  const ADM_ADM_DEL_ID: int := 9
  const EDIT_OBS: int := 100

  /** The conversation library's END and WAITING markers. */
  const CONVERSATION_END: int := -1
  const CONVERSATION_WAITING: int := -3
}
