/**
 * The role registries (bot/services/roles.py): two tabs, one for admins and one for allowed
 * users, each holding a header ("user_id", "name") and one row per user; and the two id lists
 * from the environment (ADMIN_USER_IDS, ALLOWED_USER_IDS), comma separated.
 *
 * Admins are the environment admins with the admins tab on top; allowed users are the admins
 * with the allowed tab on top, plus the environment's allowed ids that are not there yet.
 */
module Roles {
  import opened Wrappers
  import opened Text
  import opened SheetStore
  import Seqs

  const REGISTRY_HEADERS: seq<string> := ["user_id", "name"]

  /** The id a cell spells: `int(x)` of the stripped cell when that is all digits. */
  function CellId(cell: string): (id: Option<int>)
    ensures id.Some? ==> id.value >= 0
  {
    var u := Trim(cell);
    if IsDigits(u) then Some(ParseNat(u)) else None
  }

  /** The id of a registry row: the id its first cell spells. */
  function RowId(row: seq<string>): (id: Option<int>)
    ensures id.Some? ==> id.value >= 0
  {
    if row == [] then None else CellId(row[0])
  }

  /** The name of a registry row: its stripped second cell, or "" when there is none. */
  function RowName(row: seq<string>): string {
    if |row| > 1 then Trim(row[1]) else ""
  }

  /** The rows below the header. */
  function Body(vals: seq<seq<string>>): seq<seq<string>> {
    if vals == [] then [] else vals[1..]
  }

  /**
   * The registry that a tab's rows describe: each row with an id maps it to the row's name, and
   * of several rows with the same id the lowest one wins.
   */
  function Registry(body: seq<seq<string>>): (r: map<int, string>)
    ensures forall x :: x in r ==> x >= 0
  {
    if body == [] then map[]
    else
      var r := Registry(body[..|body| - 1]);
      var row := body[|body| - 1];
      if RowId(row).Some? then r[RowId(row).value := RowName(row)] else r
  }

  /** Updating after a merge is updating the right-hand side. */
  lemma MapUpdateMerge<K, V>(m: map<K, V>, n: map<K, V>, k: K, v: V)
    ensures (m + n)[k := v] == m + n[k := v]
  {
  }

  /** Registering one more row: its id, when it has one, takes the row's name. */
  lemma RegistrySnoc(body: seq<seq<string>>, row: seq<string>)
    ensures Registry(body + [row]) == if RowId(row).Some? then Registry(body)[RowId(row).value := RowName(row)] else Registry(body)
  {
    assert (body + [row])[..|body|] == body;
  }

  /** The registry of two runs of rows is the first's, overridden by the second's. */
  lemma {:induction false} RegistryConcat(a: seq<seq<string>>, b: seq<seq<string>>)
    ensures Registry(a + b) == Registry(a) + Registry(b)
    decreases |b|
  {
    if b == [] {
      assert a + b == a;
    } else {
      var bInit := b[..|b| - 1];
      var row := b[|b| - 1];
      RegistryConcat(a, bInit);
      assert a + b == (a + bInit) + [row];
      assert b == bInit + [row];
      RegistrySnoc(a + bInit, row);
      RegistrySnoc(bInit, row);
      if RowId(row).Some? {
        MapUpdateMerge(Registry(a), Registry(bInit), RowId(row).value, RowName(row));
      }
    }
  }

  /** An id is registered exactly when some row carries it. */
  lemma {:induction false} RegistryHas(body: seq<seq<string>>, x: int)
    ensures x in Registry(body) <==> exists k :: 0 <= k < |body| && RowId(body[k]) == Some(x)
  {
    if body != [] {
      var n := |body| - 1;
      var front := body[..n];
      RegistryHas(front, x);
      if RowId(body[n]) != Some(x) {
        RegistryOther(body, x);
        if x in Registry(body) {
          var k :| 0 <= k < |front| && RowId(front[k]) == Some(x);
          assert front[k] == body[k];
        } else {
          forall k | 0 <= k < |body|
            ensures RowId(body[k]) != Some(x)
          {
            if k < n {
              assert front[k] == body[k];
            }
          }
        }
      }
    }
  }

  /** A last row that does not carry x leaves x's registration as the rows before it make it. */
  lemma RegistryOther(body: seq<seq<string>>, x: int)
    requires body != [] && RowId(body[|body| - 1]) != Some(x)
    ensures x in Registry(body) <==> x in Registry(body[..|body| - 1])
  {
  }

  /** A registered id has the name of the last row that carries it. */
  lemma {:induction false} RegistryLast(body: seq<seq<string>>, x: int, k: nat)
    requires k < |body| && RowId(body[k]) == Some(x)
    requires forall j :: k < j < |body| ==> RowId(body[j]) != Some(x)
    ensures x in Registry(body) && Registry(body)[x] == RowName(body[k])
    decreases |body|
  {
    var n := |body| - 1;
    var front := body[..n];
    if k < n {
      assert front[k] == body[k];
      assert forall j :: k < j < |front| ==> front[j] == body[j];
      RegistryLast(front, x, k);
    }
  }

  /** The registry of a single row. */
  lemma RegistryOne(row: seq<string>)
    ensures Registry([row]) == if RowId(row).Some? then map[RowId(row).value := RowName(row)] else map[]
  {
    assert [row][..0] == [];
  }

  /** A run of rows none of which carries x does not register x. */
  lemma NoneCarries(vals: seq<seq<string>>, lo: nat, hi: nat, x: int)
    requires lo <= hi <= |vals|
    requires forall j :: lo <= j < hi ==> RowId(vals[j]) != Some(x)
    ensures x !in Registry(vals[lo..hi])
  {
    RegistryHas(vals[lo..hi], x);
    forall k | 0 <= k < hi - lo
      ensures RowId(vals[lo..hi][k]) != Some(x)
    {
      assert vals[lo..hi][k] == vals[lo + k];
    }
  }

  /** A row carrying x between runs that do not re-register x sets x's name over the runs' registries. */
  lemma RegistrySplice(a: seq<seq<string>>, row: seq<string>, b: seq<seq<string>>, x: int)
    requires RowId(row) == Some(x) && x !in Registry(b)
    ensures Registry(a + [row] + b) == (Registry(a) + Registry(b))[x := RowName(row)]
  {
    RegistryConcat(a + [row], b);
    RegistryConcat(a, [row]);
    RegistryOne(row);
    assert Registry(a + [row] + b) == (Registry(a) + map[x := RowName(row)]) + Registry(b);
    MapSplice(Registry(a), Registry(b), x, RowName(row));
  }

  /** Setting k between two maps, the second lacking k, is setting it over their union. */
  lemma MapSplice<K, V>(m: map<K, V>, n: map<K, V>, k: K, v: V)
    requires k !in n
    ensures (m + map[k := v]) + n == (m + n)[k := v]
  {
    assert forall y :: y in (m + n)[k := v] <==> y in (m + map[k := v]) + n;
  }

  lemma MapUpdateTwice<K, V>(m: map<K, V>, k: K, v: V, w: V)
    ensures m[k := v][k := w] == m[k := w]
  {
  }

  lemma MapUpdateRemove<K, V>(m: map<K, V>, k: K, v: V)
    requires k !in m
    ensures m[k := v] - {k} == m
  {
  }

  /**
   * `_read_ids_and_names_from_sheet`: every row below the header, skipping empty rows and rows
   * without a numeric id, read into the registry.
   */
  method ReadIdsAndNames(ws: Worksheet) returns (out: map<int, string>)
    ensures out == Registry(Body(ws.table))
  {
    var vals := ws.table;
    out := map[];
    if vals == [] {
      return;
    }
    for i := 1 to |vals|
      invariant out == Registry(vals[1..i])
    {
      assert vals[1..i + 1][..i - 1] == vals[1..i];
      var row := vals[i];
      if row == [] {
        continue;
      }
      var uidStr := Trim(row[0]);
      var name := if |row| > 1 then Trim(row[1]) else "";
      if IsDigits(uidStr) {
        out := out[ParseNat(uidStr) := name];
      }
    }
    assert vals[1..|vals|] == Body(vals);
  }

  // ---------------------------------------------------------------------------------------
  // Adding and removing ids
  // ---------------------------------------------------------------------------------------

  /** The first row (counting the header as 0) below the header that carries id uid, or -1. */
  function FirstRowOf(vals: seq<seq<string>>, uid: int, i: nat): (r: int)
    requires 1 <= i <= |vals|
    ensures r == -1 || i <= r < |vals|
    ensures r >= 0 ==> RowId(vals[r]) == Some(uid)
    ensures forall j :: i <= j < |vals| && (r < 0 || j < r) ==> RowId(vals[j]) != Some(uid)
    decreases |vals| - i
  {
    if i == |vals| then -1
    else if RowId(vals[i]) == Some(uid) then i
    else FirstRowOf(vals, uid, i + 1)
  }

  /** The range update A:B of a row: the id and name written over its first two cells, the rest kept. */
  function Rewritten(row: seq<string>, uid: int, name: string): (r: seq<string>)
    ensures |r| >= 2 && r[0] == IntToString(uid) && r[1] == name
    ensures forall j :: 2 <= j < |row| ==> j < |r| && r[j] == row[j]
  {
    [IntToString(uid), name] + (if |row| > 2 then row[2..] else [])
  }

  /**
   * The tab after `_append_id_name_to_sheet`: a new id is appended with its name; a registered
   * id given a non-empty name other than its registered one has its first row rewritten; any
   * other call leaves the tab alone.
   */
  function AppendedTable(vals: seq<seq<string>>, uid: int, name: string): seq<seq<string>> {
    var reg := Registry(Body(vals));
    if uid !in reg then vals + [[IntToString(uid), name]]
    else if name != "" && reg[uid] != name && vals != [] then
      var i := FirstRowOf(vals, uid, 1);
      if i < 0 then vals else vals[i := Rewritten(vals[i], uid, name)]
    else vals
  }

  /** How many writes `_append_id_name_to_sheet` makes: one unless it leaves the tab alone. */
  function AppendWrites(vals: seq<seq<string>>, uid: int, name: string): nat {
    var reg := Registry(Body(vals));
    if uid !in reg || (name != "" && reg[uid] != name) then 1 else 0
  }

  /** A registered id is carried by some row below the header, so the rewrite always finds one. */
  lemma RegisteredHasRow(vals: seq<seq<string>>, uid: int)
    requires uid in Registry(Body(vals))
    ensures vals != [] && 1 <= FirstRowOf(vals, uid, 1) < |vals|
  {
    RegistryHas(Body(vals), uid);
    var k :| 0 <= k < |Body(vals)| && RowId(Body(vals)[k]) == Some(uid);
    assert RowId(vals[k + 1]) == Some(uid);
  }

  /** `_append_id_name_to_sheet`. */
  method AppendIdName(ws: Worksheet, uid: int, name: string)
    modifies ws
    ensures ws.table == AppendedTable(old(ws.table), uid, name)
    ensures ws.writes == old(ws.writes) + AppendWrites(old(ws.table), uid, name)
  {
    var registry := ReadIdsAndNames(ws);
    if uid in registry {
      if name != "" && registry[uid] != name {
        var vals := ws.table;
        RegisteredHasRow(vals, uid);
        var i := 1;
        while i < |vals|
          invariant 1 <= i <= FirstRowOf(vals, uid, 1)
          invariant FirstRowOf(vals, uid, i) == FirstRowOf(vals, uid, 1)
          invariant ws.table == vals && ws.writes == old(ws.writes)
          decreases |vals| - i
        {
          var row := vals[i];
          if row != [] && IsDigits(Trim(row[0])) && ParseNat(Trim(row[0])) == uid {
            ws.UpdateRow(i, Rewritten(row, uid, name));
            return;
          }
          i := i + 1;
        }
      }
      return;
    }
    ws.AppendRow([IntToString(uid), name]);
  }

  /** The row of id uid written by the bot reads back as uid with the stripped name. */
  lemma NewRowReads(uid: nat, name: string, rest: seq<string>)
    ensures RowId([IntToString(uid), name] + rest) == Some(uid)
    ensures RowName([IntToString(uid), name] + rest) == Trim(name)
  {
    var s := IntToString(uid);
    assert NoSpace(s) && Stripped(s);
    ParseNatToString(uid);
  }

  /**
   * Adding an id registers it: a new id with the stripped name; a registered id keeps its name
   * when the name given is empty or the same, and otherwise takes the stripped new name, when it
   * is carried by one row only. The other ids are untouched.
   */
  lemma AppendRegisters(vals: seq<seq<string>>, uid: nat, name: string)
    requires vals != []
    requires forall j, k :: 1 <= j < k < |vals| && RowId(vals[j]) == Some(uid) ==> RowId(vals[k]) != Some(uid)
    ensures var reg := Registry(Body(vals));
      Registry(Body(AppendedTable(vals, uid, name)))
        == if uid in reg && (name == "" || reg[uid] == name) then reg else reg[uid := Trim(name)]
  {
    var reg := Registry(Body(vals));
    if uid !in reg {
      AppendNew(vals, uid, name);
    } else if name != "" && reg[uid] != name {
      RegisteredHasRow(vals, uid);
      var i := FirstRowOf(vals, uid, 1);
      assert AppendedTable(vals, uid, name) == vals[i := Rewritten(vals[i], uid, name)];
      AppendRename(vals, uid, name, i);
    }
  }

  /** Appending the row of a new id registers it with the stripped name. */
  lemma AppendNew(vals: seq<seq<string>>, uid: nat, name: string)
    requires vals != []
    ensures Registry(Body(vals + [[IntToString(uid), name]])) == Registry(Body(vals))[uid := Trim(name)]
  {
    var row := [IntToString(uid), name];
    NewRowReads(uid, name, []);
    assert row + [] == row;
    RegistryOne(row);
    assert Body(vals + [row]) == Body(vals) + [row];
    RegistryConcat(Body(vals), [row]);
  }

  /** Rewriting the only row of an id renames it to the stripped name. */
  lemma AppendRename(vals: seq<seq<string>>, uid: nat, name: string, i: nat)
    requires 1 <= i < |vals| && RowId(vals[i]) == Some(uid)
    requires forall k :: i < k < |vals| ==> RowId(vals[k]) != Some(uid)
    ensures Registry(Body(vals[i := Rewritten(vals[i], uid, name)])) == Registry(Body(vals))[uid := Trim(name)]
  {
    var rest := if |vals[i]| > 2 then vals[i][2..] else [];
    var newRow := Rewritten(vals[i], uid, name);
    NewRowReads(uid, name, rest);
    var a := vals[1..i];
    var b := vals[i + 1..];
    BodyAround(vals, i, newRow);
    NoneAfter(vals, i, uid);
    RegistrySplice(a, vals[i], b, uid);
    RegistrySplice(a, newRow, b, uid);
    MapUpdateTwice(Registry(a) + Registry(b), uid, RowName(vals[i]), Trim(name));
  }

  /** An id no row after row i has is not in the registry of those rows. */
  lemma NoneAfter(vals: seq<seq<string>>, i: nat, x: int)
    requires i < |vals|
    requires forall k :: i < k < |vals| ==> RowId(vals[k]) != Some(x)
    ensures x !in Registry(vals[i + 1..])
  {
    NoneCarries(vals, i + 1, |vals|, x);
    assert vals[i + 1..|vals|] == vals[i + 1..];
  }

  /** The body of a tab, before and after row i is replaced: the rows before it, that row, the rows after it. */
  lemma BodyAround(vals: seq<seq<string>>, i: nat, row: seq<string>)
    requires 1 <= i < |vals|
    ensures Body(vals) == vals[1..i] + [vals[i]] + vals[i + 1..]
    ensures Body(vals[i := row]) == vals[1..i] + [row] + vals[i + 1..]
  {
    Seqs.CutAt(vals, 1, i);
    Seqs.CutAtUpdate(vals, 1, i, row);
  }

  /**
   * The first row at or after position i (0 is the header) that is empty or carries id uid; the
   * removal stops there, deleting the row in the second case and failing on the empty row in the
   * first, as indexing an empty row raises.
   */
  function RemoveStop(vals: seq<seq<string>>, uid: int, i: nat): (r: int)
    requires 1 <= i <= |vals|
    ensures r == -1 || i <= r < |vals|
    ensures r >= 0 ==> vals[r] == [] || RowId(vals[r]) == Some(uid)
    ensures forall j :: i <= j < |vals| && (r < 0 || j < r) ==> vals[j] != [] && RowId(vals[j]) != Some(uid)
    decreases |vals| - i
  {
    if i == |vals| then -1
    else if vals[i] == [] || RowId(vals[i]) == Some(uid) then i
    else RemoveStop(vals, uid, i + 1)
  }

  /**
   * `_remove_id_from_sheet`: deletes the first row below the header that carries uid and answers
   * true; answers false when no row does or the tab is empty; fails on an empty row met first.
   */
  method RemoveId(ws: Worksheet, uid: int) returns (r: Result<bool>)
    modifies ws
    ensures var vals := old(ws.table);
      var k := if vals == [] then -1 else RemoveStop(vals, uid, 1);
      && (k < 0 ==> r == Ok(false) && ws.table == vals && ws.writes == old(ws.writes))
      && (k >= 0 && vals[k] == [] ==> r.Err? && ws.table == vals && ws.writes == old(ws.writes))
      && (k >= 0 && vals[k] != [] ==>
            r == Ok(true) && ws.table == vals[..k] + vals[k + 1..] && ws.writes == old(ws.writes) + 1)
  {
    var vals := ws.table;
    if vals == [] {
      return Ok(false);
    }
    var i := 1;
    while i < |vals|
      invariant 1 <= i <= |vals|
      invariant RemoveStop(vals, uid, i) == RemoveStop(vals, uid, 1)
      invariant ws.table == vals && ws.writes == old(ws.writes)
      decreases |vals| - i
    {
      var row := vals[i];
      if row == [] {
        return Err("IndexError: list index out of range");
      }
      var uidStr := Trim(row[0]);
      if IsDigits(uidStr) && ParseNat(uidStr) == uid {
        ws.DeleteRow(i);
        return Ok(true);
      }
      i := i + 1;
    }
    return Ok(false);
  }

  /**
   * Removing an id from a tab without empty rows answers whether it was registered, and, when it
   * was carried by one row only, unregisters it and leaves the other ids as they were.
   */
  lemma RemoveUnregisters(vals: seq<seq<string>>, uid: int)
    requires vals != [] && forall j :: 1 <= j < |vals| ==> vals[j] != []
    requires forall j, k :: 1 <= j < k < |vals| && RowId(vals[j]) == Some(uid) ==> RowId(vals[k]) != Some(uid)
    ensures var k := RemoveStop(vals, uid, 1);
      && (k >= 0 <==> uid in Registry(Body(vals)))
      && (k >= 0 ==> Registry(Body(vals[..k] + vals[k + 1..])) == Registry(Body(vals)) - {uid})
  {
    var k := RemoveStop(vals, uid, 1);
    if k >= 0 {
      RemoveFound(vals, uid, k);
    } else {
      RemoveMissing(vals, uid);
    }
  }

  /** When the removal finds no row, the id is not registered. */
  lemma RemoveMissing(vals: seq<seq<string>>, uid: int)
    requires vals != [] && RemoveStop(vals, uid, 1) < 0
    ensures uid !in Registry(Body(vals))
  {
    NoneCarries(vals, 1, |vals|, uid);
    assert vals[1..|vals|] == Body(vals);
  }

  /** Where the removal stops, in a tab without empty rows, is the only row of the id. */
  lemma RemoveFound(vals: seq<seq<string>>, uid: int, k: int)
    requires vals != [] && forall j :: 1 <= j < |vals| ==> vals[j] != []
    requires forall j, k :: 1 <= j < k < |vals| && RowId(vals[j]) == Some(uid) ==> RowId(vals[k]) != Some(uid)
    requires k == RemoveStop(vals, uid, 1) && k >= 0
    ensures uid in Registry(Body(vals))
    ensures Registry(Body(vals[..k] + vals[k + 1..])) == Registry(Body(vals)) - {uid}
  {
    assert RowId(vals[k]) == Some(uid);
    forall j | 1 <= j < |vals| && j != k
      ensures RowId(vals[j]) != Some(uid)
    {
      if j > k {
        assert RowId(vals[k]) == Some(uid);
      }
    }
    RemoveOnly(vals, uid, k);
  }

  /** Deleting the only row of an id unregisters it and leaves the other ids as they were. */
  lemma RemoveOnly(vals: seq<seq<string>>, uid: int, k: nat)
    requires 1 <= k < |vals| && RowId(vals[k]) == Some(uid)
    requires forall j :: 1 <= j < |vals| && j != k ==> RowId(vals[j]) != Some(uid)
    ensures uid in Registry(Body(vals))
    ensures Registry(Body(vals[..k] + vals[k + 1..])) == Registry(Body(vals)) - {uid}
  {
    var a := vals[1..k];
    var b := vals[k + 1..];
    Seqs.CutAt(vals, 1, k);
    Seqs.CutOut(vals, 1, k);
    NoneCarries(vals, 1, k, uid);
    NoneCarries(vals, k + 1, |vals|, uid);
    assert vals[k + 1..|vals|] == b;
    RegistrySplice(a, vals[k], b, uid);
    RegistryConcat(a, b);
    MapUpdateRemove(Registry(a) + Registry(b), uid, RowName(vals[k]));
  }

  /**
   * With the id on two rows (a tab edited by hand), the removal deletes only the first of them and
   * answers true, but the later row keeps the id registered.
   */
  lemma RemoveLeavesDuplicate(vals: seq<seq<string>>, uid: int, j: nat, k: nat)
    requires vals != [] && forall i :: 1 <= i < |vals| ==> vals[i] != []
    requires 1 <= j < k < |vals| && RowId(vals[j]) == Some(uid) && RowId(vals[k]) == Some(uid)
    ensures var stop := RemoveStop(vals, uid, 1);
      && stop >= 0 && vals[stop] != []
      && uid in Registry(Body(vals[..stop] + vals[stop + 1..]))
  {
    var stop := RemoveStop(vals, uid, 1);
    StopsBy(vals, uid, j);
    var body := Body(vals[..stop] + vals[stop + 1..]);
    DeletedBody(vals, stop, k);
    CarriedIsRegistered(body, uid, k - 2);
  }

  /** A row carrying an id registers it. */
  lemma CarriedIsRegistered(body: seq<seq<string>>, x: int, i: nat)
    requires i < |body| && RowId(body[i]) == Some(x)
    ensures x in Registry(body)
  {
    RegistryHas(body, x);
  }

  /** The removal stops at the latest at a row carrying the id. */
  lemma StopsBy(vals: seq<seq<string>>, uid: int, j: nat)
    requires forall i :: 1 <= i < |vals| ==> vals[i] != []
    requires 1 <= j < |vals| && RowId(vals[j]) == Some(uid)
    ensures var stop := RemoveStop(vals, uid, 1); 1 <= stop <= j && vals[stop] != []
  {
  }

  /** Deleting row `stop` moves every later row k up by one, to position k - 2 of the body. */
  lemma DeletedBody(vals: seq<seq<string>>, stop: nat, k: nat)
    requires 1 <= stop < k < |vals|
    ensures |Body(vals[..stop] + vals[stop + 1..])| == |vals| - 2
    ensures Body(vals[..stop] + vals[stop + 1..])[k - 2] == vals[k]
  {
    var after := vals[..stop] + vals[stop + 1..];
    assert after[k - 1] == vals[k];
  }

  /**
   * With the id on two rows, a rename rewrites the first of them, which the registry does not
   * read: the later row's name still wins, so the write changes no registered name.
   */
  lemma RenameHiddenByLaterRow(vals: seq<seq<string>>, uid: nat, name: string, k: nat)
    requires 1 <= k < |vals| && RowId(vals[k]) == Some(uid) && FirstRowOf(vals, uid, 1) < k
    requires name != "" && uid in Registry(Body(vals)) && Registry(Body(vals))[uid] != name
    ensures AppendWrites(vals, uid, name) == 1
    ensures Registry(Body(AppendedTable(vals, uid, name))) == Registry(Body(vals))
  {
    var i := FirstRowOf(vals, uid, 1);
    var newRow := Rewritten(vals[i], uid, name);
    NewRowReads(uid, name, if |vals[i]| > 2 then vals[i][2..] else []);
    var a := vals[1..i];
    var b := vals[i + 1..];
    BodyAround(vals, i, newRow);
    assert b[k - i - 1] == vals[k];
    RegistryHas(b, uid);
    RowHidden(a, vals[i], newRow, b, uid);
  }

  /** Two rows carrying the same id register the same map when a later run carries it too. */
  lemma RowHidden(a: seq<seq<string>>, row: seq<string>, row': seq<string>, b: seq<seq<string>>, x: int)
    requires RowId(row) == Some(x) && RowId(row') == Some(x) && x in Registry(b)
    ensures Registry(a + [row] + b) == Registry(a + [row'] + b)
  {
    RegistryConcat(a + [row], b);
    RegistryConcat(a, [row]);
    RegistryOne(row);
    RegistryConcat(a + [row'], b);
    RegistryConcat(a, [row']);
    RegistryOne(row');
    MapHidden(Registry(a), Registry(b), x, RowName(row), RowName(row'));
  }

  /** A key the right-hand map holds hides whatever the left-hand side gave it. */
  lemma MapHidden<K, V>(m: map<K, V>, n: map<K, V>, k: K, v: V, w: V)
    requires k in n
    ensures (m + map[k := v]) + n == (m + map[k := w]) + n
  {
    assert forall y :: y in (m + map[k := v]) + n <==> y in (m + map[k := w]) + n;
  }

  // ---------------------------------------------------------------------------------------
  // The environment lists and the merged maps
  // ---------------------------------------------------------------------------------------

  /** The ids among comma separated pieces: each piece that strips to digits, with an empty name. */
  function IdsOf(parts: seq<string>): (m: map<int, string>)
    ensures forall k :: k in m ==> k >= 0 && m[k] == ""
  {
    if parts == [] then map[]
    else
      var m := IdsOf(parts[..|parts| - 1]);
      var id := CellId(parts[|parts| - 1]);
      if id.Some? then m[id.value := ""] else m
  }

  /** The last piece adds its id, if it spells one, to the ids of the pieces before it. */
  lemma IdsOfLast(parts: seq<string>, x: int)
    requires parts != []
    ensures x in IdsOf(parts) <==> x in IdsOf(parts[..|parts| - 1]) || CellId(parts[|parts| - 1]) == Some(x)
  {
  }

  /** An id is listed exactly when some piece spells it. */
  lemma IdsOfKeys(parts: seq<string>, x: int)
    ensures x in IdsOf(parts) <==> exists i :: 0 <= i < |parts| && CellId(parts[i]) == Some(x)
  {
    if x in IdsOf(parts) {
      IdsOfSound(parts, x);
    }
    forall i | 0 <= i < |parts| && CellId(parts[i]) == Some(x) ensures x in IdsOf(parts) {
      IdsOfComplete(parts, x, i);
    }
  }

  /** A listed id is spelled by some piece. */
  lemma {:induction false} IdsOfSound(parts: seq<string>, x: int)
    requires x in IdsOf(parts)
    ensures exists i :: 0 <= i < |parts| && CellId(parts[i]) == Some(x)
  {
    var n := |parts| - 1;
    IdsOfLast(parts, x);
    if CellId(parts[n]) != Some(x) {
      IdsOfSound(parts[..n], x);
      var i :| 0 <= i < n && CellId(parts[..n][i]) == Some(x);
      assert parts[..n][i] == parts[i];
    }
  }

  /** The id any piece spells is listed. */
  lemma {:induction false} IdsOfComplete(parts: seq<string>, x: int, i: nat)
    requires i < |parts| && CellId(parts[i]) == Some(x)
    ensures x in IdsOf(parts)
  {
    var n := |parts| - 1;
    IdsOfLast(parts, x);
    if i < n {
      assert parts[..n][i] == parts[i];
      IdsOfComplete(parts[..n], x, i);
    }
  }

  /** An environment id list ("1, 2,x,3"): the ids it holds, each with an empty name. */
  function EnvIds(raw: string): map<int, string> {
    IdsOf(SplitOn(raw, ','))
  }

  /** `get_admins_map`: the environment admins, with the admins tab's names on top when sheets are used. */
  function AdminsMap(envAdmins: string, sheetAdmins: map<int, string>, useSheets: bool): (m: map<int, string>)
    ensures m.Keys == EnvIds(envAdmins).Keys + (if useSheets then sheetAdmins.Keys else {})
    ensures forall k :: k in m ==> m[k] == if useSheets && k in sheetAdmins then sheetAdmins[k] else ""
  {
    EnvIds(envAdmins) + (if useSheets then sheetAdmins else map[])
  }

  /** Each key of extra that base lacks, added with extra's value: the loop over the environment ids. */
  function FillMissing<K, V>(base: map<K, V>, extra: map<K, V>): (m: map<K, V>)
    ensures m.Keys == base.Keys + extra.Keys
    ensures forall k :: k in m ==> m[k] == if k in base then base[k] else extra[k]
  {
    map k | k in base.Keys + extra.Keys :: if k in base then base[k] else extra[k]
  }

  /** Adding only the missing keys of extra is merging base over extra. */
  lemma FillMissingIsMerge<K, V>(base: map<K, V>, extra: map<K, V>)
    ensures FillMissing(base, extra) == extra + base
  {
  }

  /**
   * `get_allowed_map`: the admins with the allowed tab's names on top, then each environment
   * allowed id not yet present, with an empty name.
   */
  function AllowedMap(envAllowed: string, envAdmins: string, sheetAllowed: map<int, string>,
                      sheetAdmins: map<int, string>, useSheets: bool): map<int, string>
  {
    FillMissing(AdminsMap(envAdmins, sheetAdmins, useSheets) + (if useSheets then sheetAllowed else map[]),
                EnvIds(envAllowed))
  }

  /**
   * The allowed users are exactly the environment's allowed ids, the admins and, with sheets, the
   * allowed tab; a name comes from the allowed tab first, then from the admins, and is otherwise
   * empty. Every admin is an allowed user.
   */
  lemma AllowedUnion(envAllowed: string, envAdmins: string, sheetAllowed: map<int, string>,
                     sheetAdmins: map<int, string>, useSheets: bool)
    ensures var admins := AdminsMap(envAdmins, sheetAdmins, useSheets);
      var m := AllowedMap(envAllowed, envAdmins, sheetAllowed, sheetAdmins, useSheets);
      && m.Keys == EnvIds(envAllowed).Keys + admins.Keys + (if useSheets then sheetAllowed.Keys else {})
      && admins.Keys <= m.Keys
      && (forall k :: k in m ==> m[k] == if useSheets && k in sheetAllowed then sheetAllowed[k]
                                          else if k in admins then admins[k] else "")
      && m == EnvIds(envAllowed) + admins + (if useSheets then sheetAllowed else map[])
  {
    LayersShape(AdminsMap(envAdmins, sheetAdmins, useSheets), if useSheets then sheetAllowed else map[],
                EnvIds(envAllowed));
  }

  /** The shape of three layers of names: a middle layer, a top layer over it, missing keys from the bottom. */
  lemma LayersShape<K, V>(mid: map<K, V>, top: map<K, V>, bottom: map<K, V>)
    ensures var m := FillMissing(mid + top, bottom);
      && m.Keys == bottom.Keys + mid.Keys + top.Keys
      && mid.Keys <= m.Keys
      && (forall k :: k in m ==> m[k] == if k in top then top[k] else if k in mid then mid[k] else bottom[k])
      && m == bottom + mid + top
  {
    FillMissingIsMerge(mid + top, bottom);
    assert bottom + (mid + top) == bottom + mid + top;
  }

  /** `get_admins_map` with the admins tab read when sheets are used. */
  method GetAdminsMap(envAdmins: string, adminsTab: Worksheet, useSheets: bool) returns (m: map<int, string>)
    ensures m == AdminsMap(envAdmins, Registry(Body(adminsTab.table)), useSheets)
  {
    var sheet: map<int, string> := map[];
    if useSheets {
      sheet := ReadIdsAndNames(adminsTab);
    }
    m := EnvIds(envAdmins) + sheet;
  }

  /** `get_allowed_map` with both tabs read when sheets are used. */
  method GetAllowedMap(envAllowed: string, envAdmins: string, allowedTab: Worksheet, adminsTab: Worksheet,
                       useSheets: bool) returns (m: map<int, string>)
    ensures m == AllowedMap(envAllowed, envAdmins, Registry(Body(allowedTab.table)),
                            Registry(Body(adminsTab.table)), useSheets)
  {
    var envAllowedIds := EnvIds(envAllowed);
    var sheetAllowed: map<int, string> := map[];
    if useSheets {
      sheetAllowed := ReadIdsAndNames(allowedTab);
    }
    var all := GetAdminsMap(envAdmins, adminsTab, useSheets);
    all := all + sheetAllowed;
    m := AddMissing(all, envAllowedIds);
  }

  /** The loop over the environment ids: each one not present yet is added with its name. */
  method AddMissing<K, V>(base: map<K, V>, extra: map<K, V>) returns (all: map<K, V>)
    ensures all == FillMissing(base, extra)
  {
    all := base;
    var pending := extra.Keys;
    while pending != {}
      invariant pending <= extra.Keys
      invariant all.Keys == base.Keys + (extra.Keys - pending)
      invariant forall k :: k in all ==> all[k] == if k in base then base[k] else extra[k]
      decreases pending
    {
      var k :| k in pending;
      if k !in all {
        all := all[k := extra[k]];
      }
      pending := pending - {k};
    }
    SameMap(all, FillMissing(base, extra));
  }

  /** Two maps with the same keys and the same value at each key are equal. */
  lemma SameMap<K, V>(m: map<K, V>, n: map<K, V>)
    requires m.Keys == n.Keys && forall k :: k in m ==> m[k] == n[k]
    ensures m == n
  {
  }
}
