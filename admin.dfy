/**
 * The admin panel's text steps (bot/handlers/admin.py): adding an id, with an optional name, to
 * the allowed users or the admins, and removing one. The opening and cancelling callbacks only
 * show prompts and menus.
 */
module Admin {
  import opened Wrappers
  import opened Text
  import opened Config
  import opened SheetStore
  import opened Roles

  /** Which registry a panel step works on: the allowed users' tab or the admins' tab. */
  datatype Kind = AllowedUsers | Admins

  /** What a text step makes of its input: ask again with a message, or act on an id. */
  datatype AddInput = AddAgain(message: string) | AddId(uid: nat, name: string)
  datatype DelInput = DelAgain(message: string) | DelId(uid: nat)

  const ADD_EMPTY := "\U{26a0}\U{fe0f} Ingres\U{e1} `user_id` y opcionalmente nombre."
  const ADD_NOT_NUMBER := "\U{26a0}\U{fe0f} El primer dato debe ser un n\U{fa}mero (user_id)."

  /** The words of a joined name: every word is non-empty and has no whitespace. */
  predicate Words(ws: seq<string>) {
    forall i :: 0 <= i < |ws| ==> ws[i] != [] && NoSpace(ws[i])
  }

  /** Words joined by single spaces have no whitespace at either end. */
  lemma {:induction false} JoinStripped(words: seq<string>)
    requires Words(words)
    ensures Stripped(Join(words, " "))
  {
    if |words| > 1 {
      var rest := Join(words[1..], " ");
      JoinStripped(words[1..]);
      assert rest != [] by {
        assert words[1..][0] == words[1];
        JoinHead(words[1..]);
      }
      var j := words[0] + " " + rest;
      assert j[0] == words[0][0];
      assert j[|j| - 1] == rest[|rest| - 1];
    }
  }

  /** A join of words starts with the first word. */
  lemma JoinHead(words: seq<string>)
    requires Words(words) && words != []
    ensures Join(words, " ") != [] && Join(words, " ")[0] == words[0][0]
  {
  }

  /**
   * The parse of `admin_add_id_text` and `admin_add_admin_text`: the stripped text (a missing
   * text is empty) must be non-empty and its first word all digits; the id is that word, and the
   * name is the remaining words joined by single spaces, or "" when there are none.
   */
  function ParseAddText(text: Option<string>): (r: AddInput)
    ensures var t := Trim(if text.Some? then text.value else "");
      && (r == AddAgain(ADD_EMPTY) <==> t == [])
      && (r == AddAgain(ADD_NOT_NUMBER) <==> t != [] && !IsDigits(Split(t)[0]))
      && (r.AddId? ==> Split(t) != [] && IsDigits(Split(t)[0]) && r.uid == ParseNat(Split(t)[0])
                       && Split(r.name) == Split(t)[1..] && Stripped(r.name))
  {
    var t := Trim(if text.Some? then text.value else "");
    if t == [] then AddAgain(ADD_EMPTY)
    else
      SplitNonEmpty(t);
      var parts := Split(t);
      if !IsDigits(parts[0]) then AddAgain(ADD_NOT_NUMBER)
      else
        var name := if |parts| > 1 then Trim(Join(parts[1..], " ")) else "";
        NameWords(parts[1..]);
        AddId(ParseNat(parts[0]), name)
  }

  /** The name made of the remaining words splits back into them. */
  lemma NameWords(rest: seq<string>)
    requires Words(rest)
    ensures var name := if |rest| > 0 then Trim(Join(rest, " ")) else "";
      Split(name) == rest && Stripped(name) && (rest != [] ==> name == Join(rest, " "))
  {
    SplitJoin(rest);
    if rest != [] {
      NameIsJoin(rest);
    } else {
      assert Join(rest, " ") == "";
    }
  }

  /** Words joined by single spaces are already stripped, so trimming them changes nothing. */
  lemma NameIsJoin(rest: seq<string>)
    requires Words(rest)
    ensures Trim(Join(rest, " ")) == Join(rest, " ") && Stripped(Join(rest, " "))
  {
    JoinStripped(rest);
  }

  /**
   * Writing an id and then its name's words, separated by single spaces, is read back as that id
   * and that name.
   */
  lemma AddTextRoundTrip(uid: nat, words: seq<string>)
    requires Words(words)
    ensures ParseAddText(Some(Join([NatToString(uid)] + words, " "))) == AddId(uid, Join(words, " "))
  {
    var all := [NatToString(uid)] + words;
    var t := Join(all, " ");
    assert Words(all) by {
      assert all[0] == NatToString(uid) && IsDigits(all[0]);
      assert forall i :: 1 <= i < |all| ==> all[i] == words[i - 1];
    }
    JoinStripped(all);
    SplitJoin(all);
    JoinHead(all);
    assert all[1..] == words;
    ParseNatToString(uid);
    NameWords(words);
  }

  /**
   * The parse of `admin_del_id_text` and `admin_del_admin_text`: the whole stripped text must be
   * digits, and is the id.
   */
  function ParseDelText(text: Option<string>, kind: Kind): (r: DelInput)
    ensures var t := Trim(if text.Some? then text.value else "");
      && (r.DelId? <==> IsDigits(t))
      && (r.DelId? ==> r.uid == ParseNat(t))
      && (r.DelAgain? ==> r.message == DelAgainMessage(kind))
  {
    var t := Trim(if text.Some? then text.value else "");
    if !IsDigits(t) then DelAgain(DelAgainMessage(kind)) else DelId(ParseNat(t))
  }

  /** An id written out, with any surrounding whitespace, is read back by the removal step. */
  lemma DelTextRoundTrip(uid: nat, before: string, after: string, kind: Kind)
    requires forall i :: 0 <= i < |before| ==> IsSpace(before[i])
    requires forall i :: 0 <= i < |after| ==> IsSpace(after[i])
    ensures ParseDelText(Some(before + NatToString(uid) + after), kind) == DelId(uid)
  {
    var s := NatToString(uid);
    var t := before + s + after;
    TrimAround(before, s, after);
    ParseNatToString(uid);
  }

  /** Stripping whitespace around a word gives the word. */
  lemma TrimAround(before: string, s: string, after: string)
    requires s != [] && NoSpace(s)
    requires forall i :: 0 <= i < |before| ==> IsSpace(before[i])
    requires forall i :: 0 <= i < |after| ==> IsSpace(after[i])
    ensures Trim(before + s + after) == s
  {
    TrimLeftRight(before + s + after);
    ConcatAssoc(before, s, after);
    TrimLeftPast(before, s + after);
    TrimRightPast(s, after);
  }

  lemma ConcatAssoc(a: string, b: string, c: string)
    ensures a + b + c == a + (b + c)
  {
  }

  lemma {:induction false} TrimLeftPast(before: string, rest: string)
    requires forall i :: 0 <= i < |before| ==> IsSpace(before[i])
    requires rest != [] && !IsSpace(rest[0])
    ensures TrimLeft(before + rest) == rest
  {
    if before != [] {
      assert (before + rest)[1..] == before[1..] + rest;
      TrimLeftPast(before[1..], rest);
    } else {
      assert before + rest == rest;
    }
  }

  lemma {:induction false} TrimRightPast(s: string, after: string)
    requires forall i :: 0 <= i < |after| ==> IsSpace(after[i])
    requires s != [] && !IsSpace(s[|s| - 1])
    ensures TrimRight(s + after) == s
  {
    if after != [] {
      assert (s + after)[..|s + after| - 1] == s + after[..|after| - 1];
      TrimRightPast(s, after[..|after| - 1]);
    } else {
      assert s + after == s;
    }
  }

  // ---------------------------------------------------------------------------------------
  // The replies and the next states, per registry
  // ---------------------------------------------------------------------------------------

  /** The state that asks again for an id to add. */
  function AddState(kind: Kind): int {
    if kind == AllowedUsers then ADM_ADD_ID else ADM_ADM_ADD_ID
  }

  /** The state that asks again for an id to remove. */
  function DelState(kind: Kind): int {
    if kind == AllowedUsers then ADM_DEL_ID else ADM_ADM_DEL_ID
  }

  function DelAgainMessage(kind: Kind): string {
    if kind == AllowedUsers then "\U{26a0}\U{fe0f} Debe ser un n\U{fa}mero. Prob\U{e1} otra vez o toc\U{e1} *Cancelar*."
    else "\U{26a0}\U{fe0f} Debe ser un n\U{fa}mero. Prob\U{e1} de nuevo."
  }

  /** "id - name" when there is a name, the id alone otherwise. */
  function Shown(uid: nat, name: string): string {
    if name != "" then NatToString(uid) + " - " + name else NatToString(uid)
  }

  function AddedMessage(kind: Kind, uid: nat, name: string): string {
    (if kind == AllowedUsers then "\U{2705} Agregado a usuarios permitidos: " else "\U{2705} Agregado a Admins: ")
    + Shown(uid, name)
  }

  function RemovedMessage(kind: Kind, uid: nat): string {
    (if kind == AllowedUsers then "\U{2705} Quitado de usuarios permitidos: " else "\U{2705} Quitado de Admins: ")
    + NatToString(uid)
  }

  function AbsentMessage(kind: Kind, uid: nat): string {
    "\U{2139}\U{fe0f} El ID " + NatToString(uid)
    + (if kind == AllowedUsers then " no estaba en Usuarios permitidos." else " no estaba en Admins.")
  }

  /** A handler's answer: the text it replies and the conversation state it returns. */
  datatype Reply = Reply(text: string, next: int)

  /**
   * `admin_add_id_text` (kind AllowedUsers, on the allowed tab) and `admin_add_admin_text` (kind
   * Admins, on the admins tab): bad input asks again in the same state and writes nothing; an id
   * is added to the tab, or renamed there, and the conversation ends.
   */
  method AddIdText(tab: Worksheet, kind: Kind, text: Option<string>) returns (reply: Reply)
    modifies tab
    ensures match ParseAddText(text)
      case AddAgain(msg) =>
        reply == Reply(msg, AddState(kind)) && tab.table == old(tab.table) && tab.writes == old(tab.writes)
      case AddId(uid, name) =>
        && reply == Reply(AddedMessage(kind, uid, name), CONVERSATION_END)
        && tab.table == AppendedTable(old(tab.table), uid, name)
        && tab.writes == old(tab.writes) + AppendWrites(old(tab.table), uid, name)
  {
    var input := ParseAddText(text);
    match input {
      case AddAgain(msg) =>
        reply := Reply(msg, AddState(kind));
      case AddId(uid, name) =>
        AppendIdName(tab, uid, name);
        reply := Reply(AddedMessage(kind, uid, name), CONVERSATION_END);
    }
  }

  /**
   * `admin_del_id_text` and `admin_del_admin_text`: input that is not an id asks again in the
   * same state; an id is removed from the tab and the reply says whether it was there. A failed
   * removal fails the handler.
   */
  method DelIdText(tab: Worksheet, kind: Kind, text: Option<string>) returns (reply: Result<Reply>)
    modifies tab
    ensures match ParseDelText(text, kind)
      case DelAgain(msg) =>
        reply == Ok(Reply(msg, DelState(kind))) && tab.table == old(tab.table) && tab.writes == old(tab.writes)
      case DelId(uid) =>
        var vals := old(tab.table);
        var k := if vals == [] then -1 else RemoveStop(vals, uid, 1);
        && (k < 0 ==> reply == Ok(Reply(AbsentMessage(kind, uid), CONVERSATION_END)) && tab.table == vals)
        && (k >= 0 && vals[k] == [] ==> reply.Err? && tab.table == vals)
        && (k >= 0 && vals[k] != [] ==>
              reply == Ok(Reply(RemovedMessage(kind, uid), CONVERSATION_END)) && tab.table == vals[..k] + vals[k + 1..])
  {
    var input := ParseDelText(text, kind);
    match input {
      case DelAgain(msg) =>
        reply := Ok(Reply(msg, DelState(kind)));
      case DelId(uid) =>
        reply := DelIdNumber(tab, kind, uid);
    }
  }

  /** The removal of a parsed id and the reply to it. */
  method DelIdNumber(tab: Worksheet, kind: Kind, uid: nat) returns (reply: Result<Reply>)
    modifies tab
    ensures var vals := old(tab.table);
      var k := if vals == [] then -1 else RemoveStop(vals, uid, 1);
      && (k < 0 ==> reply == Ok(Reply(AbsentMessage(kind, uid), CONVERSATION_END)) && tab.table == vals)
      && (k >= 0 && vals[k] == [] ==> reply.Err? && tab.table == vals)
      && (k >= 0 && vals[k] != [] ==>
            reply == Ok(Reply(RemovedMessage(kind, uid), CONVERSATION_END)) && tab.table == vals[..k] + vals[k + 1..])
  {
    var ok := RemoveId(tab, uid);
    if ok.Err? {
      reply := Err(ok.reason);
    } else if ok.value {
      reply := Ok(Reply(RemovedMessage(kind, uid), CONVERSATION_END));
    } else {
      reply := Ok(Reply(AbsentMessage(kind, uid), CONVERSATION_END));
    }
  }

  /**
   * An id added through the panel is registered afterwards, under the name typed when one was
   * typed and it is carried by one row only, and the other ids keep their names.
   */
  lemma AddedIsRegistered(vals: seq<seq<string>>, text: Option<string>)
    requires vals != [] && ParseAddText(text).AddId?
    requires var uid := ParseAddText(text).uid;
      forall j, k :: 1 <= j < k < |vals| && RowId(vals[j]) == Some(uid) ==> RowId(vals[k]) != Some(uid)
    ensures var input := ParseAddText(text);
      var before := Registry(Body(vals));
      var after := Registry(Body(AppendedTable(vals, input.uid, input.name)));
      && input.uid in after
      && (input.name != "" ==> after[input.uid] == input.name)
      && (forall x :: x != input.uid ==> (x in after <==> x in before) && (x in after ==> after[x] == before[x]))
  {
    var input := ParseAddText(text);
    var before := Registry(Body(vals));
    AppendRegisters(vals, input.uid, input.name);
    assert Trim(input.name) == input.name;
    if !(input.uid in before && (input.name == "" || before[input.uid] == input.name)) {
      UpdateKeepsOthers(before, input.uid, input.name);
    }
  }

  /** Setting one id's name leaves every other id as it was. */
  lemma UpdateKeepsOthers(reg: map<int, string>, uid: int, name: string)
    ensures forall x :: x != uid ==> (x in reg[uid := name] <==> x in reg) && (x in reg ==> reg[uid := name][x] == reg[x])
  {
  }
}
