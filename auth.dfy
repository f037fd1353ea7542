/**
 * Access control (bot/auth.py): whether the bot is locked, the name shown for a user, and the
 * two gates that wrap handlers, one for allowed users and one for admins.
 *
 * A gate either lets the handler run or denies it, answering through the channel the update came
 * by; a denied handler returns nothing, so a conversation stays in its state.
 */
module Auth {
  import opened Wrappers
  import opened Text
  import opened Roles
  import opened Menu

  /** `auth_is_locked`: FORCE_LOCK (default "0") stripped equal to "1", or some admin or allowed id. */
  predicate AuthIsLocked(forceLock: string, adminIds: set<int>, allowedIds: set<int>) {
    Trim(forceLock) == "1" || adminIds != {} || allowedIds != {}
  }

  /**
   * With the id sets the role registries give, the bot is locked exactly when it is forced to be
   * or someone is allowed: every admin is an allowed user.
   */
  lemma LockedIffAllowed(forceLock: string, envAllowed: string, envAdmins: string,
                         sheetAllowed: map<int, string>, sheetAdmins: map<int, string>, useSheets: bool)
    ensures var admins := AdminsMap(envAdmins, sheetAdmins, useSheets).Keys;
      var allowed := AllowedMap(envAllowed, envAdmins, sheetAllowed, sheetAdmins, useSheets).Keys;
      AuthIsLocked(forceLock, admins, allowed) <==> Trim(forceLock) == "1" || allowed != {}
  {
    AllowedUnion(envAllowed, envAdmins, sheetAllowed, sheetAdmins, useSheets);
  }

  /** The Telegram user of an update: a missing username is "". */
  datatype User = User(id: int, username: string, fullName: string)

  /**
   * `get_display_for_uid`: the registered name when there is a non-empty one; otherwise, with a
   * user in the update, "@username" or else the full name; otherwise the id.
   */
  function DisplayFor(uid: int, allowedMap: map<int, string>, user: Option<User>): (r: string)
    ensures r != ""
    ensures uid in allowedMap && allowedMap[uid] != "" ==> r == allowedMap[uid]
    ensures (uid !in allowedMap || allowedMap[uid] == "") ==>
      (r == IntToString(uid) <==> user.None? || (user.value.username == "" && user.value.fullName == "")
                                  || (user.value.username == "" && user.value.fullName == IntToString(uid)))
  {
    if uid in allowedMap && allowedMap[uid] != "" then allowedMap[uid]
    else if user.Some? && user.value.username != "" then "@" + user.value.username
    else if user.Some? && user.value.fullName != "" then user.value.fullName
    else IntToString(uid)
  }

  /**
   * The label of the current user shows a name after the id exactly when one is known: a
   * registered name, a username or a full name other than the id.
   */
  lemma LabelShowsKnownName(uid: int, allowedMap: map<int, string>, user: Option<User>)
    ensures var who := CurrentUserLabel(Some(uid), DisplayFor(uid, allowedMap, user));
      who == IntToString(uid) <==>
        (uid in allowedMap && allowedMap[uid] == IntToString(uid))
        || ((uid !in allowedMap || allowedMap[uid] == "")
            && (user.None? || (user.value.username == "" && user.value.fullName in {"", IntToString(uid)})))
  {
    var d := DisplayFor(uid, allowedMap, user);
    if user.Some? && user.value.username != "" {
      assert ("@" + user.value.username)[0] == '@';
    }
  }

  /** The channel an update came by. */
  datatype Channel = CallbackQuery | Message | ChatOnly(chatId: Option<int>)

  /** What a denial sends: a popup alert, a reply, a message to the chat, or nothing. */
  datatype Notice = Alert(text: string) | Reply(text: string) | Send(chat: int, text: string) | Silent

  /** A gate lets the handler run, or denies it with a notice. */
  datatype Gate = Call | Deny(notice: Notice)

  const ACCESS_DENIED := "\U{26d4} Acceso denegado"
  const ADMINS_ONLY := "\U{26d4} Solo administradores"

  /**
   * `require_auth`: an unlocked bot runs every handler; a locked one runs it for an allowed user
   * only, and otherwise answers "Acceso denegado" on the update's channel (a chat message when
   * the update has neither a query nor a message and its chat id is non-zero).
   */
  function RequireAuth(locked: bool, allowedIds: set<int>, uid: Option<int>, channel: Channel): (g: Gate)
    ensures g.Call? <==> !locked || (uid.Some? && uid.value in allowedIds)
    ensures g.Deny? && channel.CallbackQuery? ==> g.notice == Alert(ACCESS_DENIED)
    ensures g.Deny? && channel.Message? ==> g.notice == Reply(ACCESS_DENIED + ".")
    ensures g.Deny? && channel.ChatOnly? ==>
      g.notice == if channel.chatId.Some? && channel.chatId.value != 0 then Send(channel.chatId.value, ACCESS_DENIED + ".") else Silent
  {
    if !locked then Call
    else if uid.None? || uid.value !in allowedIds then
      match channel
      case CallbackQuery => Deny(Alert(ACCESS_DENIED))
      case Message => Deny(Reply(ACCESS_DENIED + "."))
      case ChatOnly(c) => Deny(if c.Some? && c.value != 0 then Send(c.value, ACCESS_DENIED + ".") else Silent)
    else Call
  }

  /**
   * `require_admin`: runs the handler for an admin only, locked or not, and otherwise answers
   * "Solo administradores" to a query or a message and nothing otherwise.
   */
  function RequireAdmin(adminIds: set<int>, uid: Option<int>, channel: Channel): (g: Gate)
    ensures g.Call? <==> uid.Some? && uid.value in adminIds
    ensures g.Deny? && channel.CallbackQuery? ==> g.notice == Alert(ADMINS_ONLY)
    ensures g.Deny? && channel.Message? ==> g.notice == Reply(ADMINS_ONLY + ".")
    ensures g.Deny? && channel.ChatOnly? ==> g.notice == Silent
  {
    if uid.None? || uid.value !in adminIds then
      match channel
      case CallbackQuery => Deny(Alert(ADMINS_ONLY))
      case Message => Deny(Reply(ADMINS_ONLY + "."))
      case ChatOnly(_) => Deny(Silent)
    else Call
  }

  /**
   * With the registries' id sets, whoever passes the admin gate passes the allowed-user gate,
   * whatever FORCE_LOCK says; and the admin gate opens only on a locked bot, so an unconfigured
   * bot has no admin at all.
   */
  lemma AdminPassesAuth(forceLock: string, envAllowed: string, envAdmins: string,
                        sheetAllowed: map<int, string>, sheetAdmins: map<int, string>, useSheets: bool,
                        uid: Option<int>, channel: Channel)
    ensures var admins := AdminsMap(envAdmins, sheetAdmins, useSheets).Keys;
      var allowed := AllowedMap(envAllowed, envAdmins, sheetAllowed, sheetAdmins, useSheets).Keys;
      RequireAdmin(admins, uid, channel).Call? ==>
        && AuthIsLocked(forceLock, admins, allowed)
        && RequireAuth(AuthIsLocked(forceLock, admins, allowed), allowed, uid, channel).Call?
  {
    AllowedUnion(envAllowed, envAdmins, sheetAllowed, sheetAdmins, useSheets);
  }
}
