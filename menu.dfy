/**
 * The claim of a batch of "Pendiente" rows (bot/handlers/menu.py): the operator label, the
 * business keys a preview remembers, the queue of pending rows, the three-phase selection
 * (previewed indices, then previewed keys, then the front of the queue) and the single write
 * that tags every selected row "En contacto - <who>".
 */
module Menu {
  import Seqs
  import opened Wrappers
  import opened Text
  import opened Config
  import opened Lista
  import opened SheetStore
  import opened UserData
  import opened Reservation
  import Pagination

  // ---------------------------------------------------------------------------------------
  // The operator label (`_current_user_label`)
  // ---------------------------------------------------------------------------------------

  /** The text of s up to its first whitespace character. */
  function FirstWord(s: string): string {
    s[..TokenEnd(s)]
  }

  /**
   * `_current_user_label`: "Sin usuario" without a user; otherwise the id, followed by the display
   * name in parentheses when that name is non-empty and not the id itself. `display` is what
   * `get_display_for_uid` answers. The id is always the label's first word.
   */
  function CurrentUserLabel(uid: Option<int>, display: string): (who: string)
    ensures who != [] && !IsSpace(who[|who| - 1])
    ensures uid.None? <==> who == "Sin usuario"
    ensures uid.Some? ==> FirstWord(who) == IntToString(uid.value)
    ensures uid.Some? ==> (who == IntToString(uid.value) <==> display == "" || display == IntToString(uid.value))
  {
    if uid.None? then "Sin usuario"
    else
      var uidStr := IntToString(uid.value);
      if display != "" && display != uidStr then
        var tail := " (" + display + ")";
        TokenEndOf(uidStr, tail);
        assert (uidStr + tail)[..|uidStr|] == uidStr;
        assert (uidStr + tail)[0] == uidStr[0];
        assert (uidStr + tail)[|uidStr + tail| - 1] == ')';
        uidStr + tail
      else
        TokenEndOf(uidStr, []);
        assert uidStr + [] == uidStr;
        assert "Sin usuario"[3] == ' ';
        uidStr
  }

  // ---------------------------------------------------------------------------------------
  // Business keys (`_row_key`, `_matches_key`)
  // ---------------------------------------------------------------------------------------

  /** `_row_key`: the trimmed phone and DNI of a row, under "tel" and "dni". */
  function RowKey(row: Row): Key {
    map["tel" := KeyTel(row), "dni" := KeyDni(row)]
  }

  /** An entry of a key as `_matches_key` reads it: missing or empty is "", otherwise trimmed. */
  function KeyField(key: Key, name: string): string {
    if name in key then Trim(key[name]) else ""
  }

  /** `_matches_key`: never for an empty key; otherwise a non-empty phone or DNI of the key equals the row's. */
  predicate MatchesKey(row: Row, key: Key) {
    && key != map[]
    && (|| (KeyField(key, "tel") != "" && KeyTel(row) == KeyField(key, "tel"))
        || (KeyField(key, "dni") != "" && KeyDni(row) == KeyField(key, "dni")))
  }

  /**
   * A key built by `_row_key` from a target row matches exactly the rows sharing its non-empty
   * phone or its non-empty DNI; an empty key matches nothing.
   */
  lemma MatchesRowKey(row: Row, target: Row)
    ensures !MatchesKey(row, map[])
    ensures MatchesKey(row, RowKey(target)) <==>
      || (KeyTel(target) != "" && KeyTel(row) == KeyTel(target))
      || (KeyDni(target) != "" && KeyDni(row) == KeyDni(target))
  {
    var t, d := KeyTel(target), KeyDni(target);
    var key := map["tel" := t, "dni" := d];
    assert "tel" != "dni";
    assert KeyField(key, "tel") == Trim(t) == t;
    assert KeyField(key, "dni") == Trim(d) == d;
  }

  // ---------------------------------------------------------------------------------------
  // The queue of pending rows (`_pending_positions`)
  // ---------------------------------------------------------------------------------------

  /** A row waiting to be claimed: its padded Estado is exactly "Pendiente". */
  predicate IsPending(row: Row) {
    Pad6(row)[ESTADO] == PENDIENTE
  }

  /** An entry of the queue: a store index and the padded row found there. */
  datatype Position = Position(index: nat, row: Row)

  function IndicesOf(ps: seq<Position>): (ix: seq<nat>)
    ensures |ix| == |ps| && forall k :: 0 <= k < |ps| ==> ix[k] == ps[k].index
  {
    seq(|ps|, k requires 0 <= k < |ps| => ps[k].index)
  }

  /** The entries of a queue point at pending rows of `rows` and carry them padded. */
  predicate PositionsOk(rows: seq<Row>, ps: seq<Position>) {
    forall k :: 0 <= k < |ps| ==> ps[k].index < |rows| && IsPending(rows[ps[k].index]) && ps[k].row == Pad6(rows[ps[k].index])
  }

  predicate Increasing(ps: seq<Position>) {
    forall k, l :: 0 <= k < l < |ps| ==> ps[k].index < ps[l].index
  }

  /**
   * `_pending_positions`: every pending row, as (index, padded row), in store order; no other
   * row is listed and no pending row is missed.
   */
  function PendingPositions(rows: seq<Row>): (ps: seq<Position>)
    ensures PositionsOk(rows, ps) && Increasing(ps)
    ensures forall i :: 0 <= i < |rows| && IsPending(rows[i]) ==> i in IndicesOf(ps)
  {
    if rows == [] then []
    else
      var last := |rows| - 1;
      var rest := PendingPositions(rows[..last]);
      PendingSnoc(rows, rest);
      if IsPending(rows[last]) then rest + [Position(last, Pad6(rows[last]))] else rest
  }

  /** The queue of all rows but the last, extended by the last row when it is pending. */
  lemma PendingSnoc(rows: seq<Row>, rest: seq<Position>)
    requires rows != []
    requires var front := rows[..|rows| - 1];
      && PositionsOk(front, rest) && Increasing(rest)
      && forall i :: 0 <= i < |front| && IsPending(front[i]) ==> i in IndicesOf(rest)
    ensures var last := |rows| - 1;
      var ps := if IsPending(rows[last]) then rest + [Position(last, Pad6(rows[last]))] else rest;
      && PositionsOk(rows, ps) && Increasing(ps)
      && forall i :: 0 <= i < |rows| && IsPending(rows[i]) ==> i in IndicesOf(ps)
  {
    var last := |rows| - 1;
    var ps := if IsPending(rows[last]) then rest + [Position(last, Pad6(rows[last]))] else rest;
    PendingSnocOk(rows, rest, ps);
    PendingSnocCovers(rows, rest, ps);
  }

  lemma PendingSnocOk(rows: seq<Row>, rest: seq<Position>, ps: seq<Position>)
    requires rows != [] && PositionsOk(rows[..|rows| - 1], rest) && Increasing(rest)
    requires var last := |rows| - 1;
      ps == if IsPending(rows[last]) then rest + [Position(last, Pad6(rows[last]))] else rest
    ensures PositionsOk(rows, ps) && Increasing(ps)
  {
    var last := |rows| - 1;
    var front := rows[..last];
    forall k | 0 <= k < |rest| ensures rest[k].index < last && rows[rest[k].index] == front[rest[k].index] {
    }
    forall k | 0 <= k < |ps|
      ensures ps[k].index < |rows| && IsPending(rows[ps[k].index]) && ps[k].row == Pad6(rows[ps[k].index])
    {
      if k < |rest| { assert ps[k] == rest[k]; }
    }
    forall k, l | 0 <= k < l < |ps| ensures ps[k].index < ps[l].index {
      assert ps[k] == rest[k];
      if l < |rest| { assert ps[l] == rest[l]; }
    }
  }

  lemma PendingSnocCovers(rows: seq<Row>, rest: seq<Position>, ps: seq<Position>)
    requires rows != []
    requires var front := rows[..|rows| - 1];
      forall i :: 0 <= i < |front| && IsPending(front[i]) ==> i in IndicesOf(rest)
    requires var last := |rows| - 1;
      ps == if IsPending(rows[last]) then rest + [Position(last, Pad6(rows[last]))] else rest
    ensures forall i :: 0 <= i < |rows| && IsPending(rows[i]) ==> i in IndicesOf(ps)
  {
    var last := |rows| - 1;
    var front := rows[..last];
    var ix := IndicesOf(ps);
    var ir := IndicesOf(rest);
    assert forall k :: 0 <= k < |rest| ==> ix[k] == ir[k];
    forall i | 0 <= i < |rows| && IsPending(rows[i]) ensures i in ix {
      if i < last {
        assert front[i] == rows[i];
        var k :| 0 <= k < |ir| && ir[k] == i;
        assert ix[k] == i;
      } else {
        assert ix[|ix| - 1] == last;
      }
    }
  }

  /** The loop of `_pending_positions`. */
  method PendingPositionsOf(allRows: seq<Row>) returns (positions: seq<Position>)
    ensures positions == PendingPositions(allRows)
  {
    positions := [];
    for idx := 0 to |allRows|
      invariant positions == PendingPositions(allRows[..idx])
    {
      assert allRows[..idx + 1][..idx] == allRows[..idx];
      var padded := Pad6(allRows[idx]);
      if padded[ESTADO] == PENDIENTE {
        positions := positions + [Position(idx, padded)];
      }
    }
    assert allRows[..|allRows|] == allRows;
  }

  // ---------------------------------------------------------------------------------------
  // The selection (`_reserve_pendientes_for_user`, lines 62-95)
  // ---------------------------------------------------------------------------------------

  /** `try_add_index` accepts i: not chosen yet, in range, and pending in the fresh read. */
  predicate Addable(rows: seq<Row>, sel: seq<int>, i: int) {
    i !in sel && 0 <= i < |rows| && IsPending(rows[i])
  }

  function TryAdd(rows: seq<Row>, sel: seq<int>, i: int): seq<int> {
    if Addable(rows, sel, i) then sel + [i] else sel
  }

  /** The batch size: `min(limit, pending)` for a non-zero limit, every pending row for a zero one. */
  function MaxItems(limit: int, pending: nat): int {
    if limit != 0 then (if limit < pending then limit else pending) else pending
  }

  /** First phase: the previewed indices, in order, until the batch is full. */
  function ByIndices(rows: seq<Row>, sel: seq<int>, prefs: seq<int>, maxItems: int): seq<int>
    decreases |prefs|
  {
    if prefs == [] || |sel| >= maxItems then sel
    else ByIndices(rows, TryAdd(rows, sel, prefs[0]), prefs[1..], maxItems)
  }

  /** `_matches_key` against one previewed key, as a test on rows. */
  function KeyMatcher(key: Key): Row -> bool {
    row => MatchesKey(row, key)
  }

  /** The scan for one previewed key: the first queue entry not yet chosen whose row `matches`, if any. */
  function ScanKey(rows: seq<Row>, sel: seq<int>, ps: seq<Position>, matches: Row -> bool): seq<int>
    decreases |ps|
  {
    if ps == [] then sel
    else if ps[0].index in sel then ScanKey(rows, sel, ps[1..], matches)
    else if matches(ps[0].row) && Addable(rows, sel, ps[0].index) then sel + [ps[0].index]
    else ScanKey(rows, sel, ps[1..], matches)
  }

  /** Second phase: one row per previewed key, in key order, until the batch is full. */
  function ByKeys(rows: seq<Row>, sel: seq<int>, keys: seq<Key>, ps: seq<Position>, maxItems: int): seq<int>
    decreases |keys|
  {
    if keys == [] || |sel| >= maxItems then sel
    else ByKeys(rows, ScanKey(rows, sel, ps, KeyMatcher(keys[0])), keys[1..], ps, maxItems)
  }

  /** Third phase: the queue from its front, until the batch is full. */
  function ByQueue(rows: seq<Row>, sel: seq<int>, ps: seq<Position>, maxItems: int): seq<int>
    decreases |ps|
  {
    if ps == [] || |sel| >= maxItems then sel
    else ByQueue(rows, TryAdd(rows, sel, ps[0].index), ps[1..], maxItems)
  }

  /** The store indices a claim selects from a fresh read, the previewed indices and keys, and the limit. */
  function Selection(rows: seq<Row>, prefIdx: seq<int>, prefKeys: seq<Key>, limit: int): seq<int> {
    var ps := PendingPositions(rows);
    var m := MaxItems(limit, |ps|);
    ByQueue(rows, ByKeys(rows, ByIndices(rows, [], prefIdx, m), prefKeys, ps, m), ps, m)
  }

  // The loops of the selection, each proved against its phase.

  /** `try_add_index` */
  method TryAddIndex(rows: seq<Row>, sel: seq<int>, absIdx: int) returns (next: seq<int>, added: bool)
    ensures next == TryAdd(rows, sel, absIdx)
    ensures added <==> Addable(rows, sel, absIdx)
  {
    if absIdx in sel || !(0 <= absIdx < |rows|) {
      return sel, false;
    }
    var padded := Pad6(rows[absIdx]);
    if padded[ESTADO] != PENDIENTE {
      return sel, false;
    }
    return sel + [absIdx], true;
  }

  method SelectByIndices(rows: seq<Row>, sel0: seq<int>, prefs: seq<int>, maxItems: int) returns (sel: seq<int>)
    ensures sel == ByIndices(rows, sel0, prefs, maxItems)
  {
    sel := sel0;
    var j := 0;
    assert prefs[0..] == prefs;
    while j < |prefs|
      invariant j <= |prefs|
      invariant ByIndices(rows, sel, prefs[j..], maxItems) == ByIndices(rows, sel0, prefs, maxItems)
    {
      if |sel| >= maxItems {
        break;
      }
      assert prefs[j..][1..] == prefs[j + 1..];
      var added;
      sel, added := TryAddIndex(rows, sel, prefs[j]);
      j := j + 1;
    }
  }

  method ScanKeyLoop(rows: seq<Row>, sel0: seq<int>, key: Key, ps: seq<Position>) returns (sel: seq<int>)
    ensures sel == ScanKey(rows, sel0, ps, KeyMatcher(key))
  {
    sel := sel0;
    var j := 0;
    assert ps[0..] == ps;
    while j < |ps|
      invariant j <= |ps| && sel == sel0
      invariant ScanKey(rows, sel0, ps[j..], KeyMatcher(key)) == ScanKey(rows, sel0, ps, KeyMatcher(key))
    {
      assert ps[j..][1..] == ps[j + 1..];
      var p := ps[j];
      assert KeyMatcher(key)(p.row) == MatchesKey(p.row, key);
      if p.index in sel {
        j := j + 1;
        continue;
      }
      if MatchesKey(p.row, key) {
        var next, added := TryAddIndex(rows, sel, p.index);
        if added {
          sel := next;
          break;
        }
      }
      j := j + 1;
    }
  }

  method SelectByKeys(rows: seq<Row>, sel0: seq<int>, keys: seq<Key>, ps: seq<Position>, maxItems: int)
    returns (sel: seq<int>)
    ensures sel == ByKeys(rows, sel0, keys, ps, maxItems)
  {
    sel := sel0;
    var j := 0;
    assert keys[0..] == keys;
    while j < |keys|
      invariant j <= |keys|
      invariant ByKeys(rows, sel, keys[j..], ps, maxItems) == ByKeys(rows, sel0, keys, ps, maxItems)
    {
      if |sel| >= maxItems {
        break;
      }
      assert keys[j..][1..] == keys[j + 1..];
      sel := ScanKeyLoop(rows, sel, keys[j], ps);
      j := j + 1;
    }
  }

  method SelectFromQueue(rows: seq<Row>, sel0: seq<int>, ps: seq<Position>, maxItems: int) returns (sel: seq<int>)
    ensures sel == ByQueue(rows, sel0, ps, maxItems)
  {
    sel := sel0;
    var j := 0;
    assert ps[0..] == ps;
    while j < |ps|
      invariant j <= |ps|
      invariant ByQueue(rows, sel, ps[j..], maxItems) == ByQueue(rows, sel0, ps, maxItems)
    {
      if |sel| >= maxItems {
        break;
      }
      assert ps[j..][1..] == ps[j + 1..];
      var added;
      sel, added := TryAddIndex(rows, sel, ps[j].index);
      j := j + 1;
    }
  }

  /**
   * The selection as `_reserve_pendientes_for_user` runs it: the batch size from the queue, then
   * each phase only while the batch is short (the keys only when some were previewed).
   */
  method SelectIndices(rows: seq<Row>, prefIdx: seq<int>, prefKeys: seq<Key>, limit: int)
    returns (positions: seq<Position>, sel: seq<int>)
    ensures positions == PendingPositions(rows)
    ensures sel == Selection(rows, prefIdx, prefKeys, limit)
    ensures ValidSel(rows, sel) && (positions == [] ==> sel == [])
  {
    positions := PendingPositionsOf(rows);
    var maxItems := if limit != 0 then (if limit < |positions| then limit else |positions|) else |positions|;
    sel := SelectByIndices(rows, [], prefIdx, maxItems);
    if |sel| < maxItems && prefKeys != [] {
      sel := SelectByKeys(rows, sel, prefKeys, positions, maxItems);
    }
    if |sel| < maxItems {
      sel := SelectFromQueue(rows, sel, positions, maxItems);
    }
    SelectionSound(rows, prefIdx, prefKeys, limit);
    SelectionCount(rows, prefIdx, prefKeys, limit);
  }
  // ---------------------------------------------------------------------------------------
  // What the selection guarantees
  // ---------------------------------------------------------------------------------------

  /** A selection: distinct, in-range indices of pending rows. */
  predicate ValidSel(rows: seq<Row>, sel: seq<int>) {
    && (forall k :: 0 <= k < |sel| ==> 0 <= sel[k] < |rows| && IsPending(rows[sel[k]]))
    && (forall k, l :: 0 <= k < l < |sel| ==> sel[k] != sel[l])
  }

  lemma TryAddValid(rows: seq<Row>, sel: seq<int>, i: int)
    requires ValidSel(rows, sel)
    ensures ValidSel(rows, TryAdd(rows, sel, i))
  {
    if Addable(rows, sel, i) {
      assert forall k :: 0 <= k < |sel| ==> sel[k] != i;
    }
  }

  /** The first phase only appends previewed indices, and not beyond the batch size. */
  lemma {:induction false} ByIndicesSound(rows: seq<Row>, sel: seq<int>, prefs: seq<int>, m: int)
    requires ValidSel(rows, sel)
    ensures var r := ByIndices(rows, sel, prefs, m);
      && ValidSel(rows, r) && sel <= r
      && (|sel| <= m ==> |r| <= m)
      && (forall k :: |sel| <= k < |r| ==> r[k] in prefs)
    decreases |prefs|
  {
    if prefs != [] && |sel| < m {
      var t := TryAdd(rows, sel, prefs[0]);
      TryAddValid(rows, sel, prefs[0]);
      ByIndicesSound(rows, t, prefs[1..], m);
      var r := ByIndices(rows, t, prefs[1..], m);
      assert forall x :: x in prefs[1..] ==> x in prefs;
      if t != sel {
        assert r[|sel|] == t[|sel|] == prefs[0];
      }
    }
  }

  /** One key adds at most one index: a pending one not yet chosen whose row matches the key. */
  lemma {:induction false} ScanKeySound(rows: seq<Row>, sel: seq<int>, ps: seq<Position>, matches: Row -> bool)
    requires PositionsOk(rows, ps)
    ensures var r := ScanKey(rows, sel, ps, matches);
      || r == sel
      || (&& |r| == |sel| + 1 && r[..|sel|] == sel
          && Addable(rows, sel, r[|sel|]) && matches(Pad6(rows[r[|sel|]])))
    decreases |ps|
  {
    if ps != [] {
      assert PositionsOk(rows, ps[1..]);
      ScanKeySound(rows, sel, ps[1..], matches);
      var r := sel + [ps[0].index];
      assert r[..|sel|] == sel;
    }
  }

  /** The second phase keeps the selection valid and appends no more than the batch size allows. */
  lemma {:induction false} ByKeysValid(rows: seq<Row>, sel: seq<int>, keys: seq<Key>, ps: seq<Position>, m: int)
    requires ValidSel(rows, sel) && PositionsOk(rows, ps)
    ensures var r := ByKeys(rows, sel, keys, ps, m);
      && ValidSel(rows, r) && sel <= r
      && (|sel| <= m ==> |r| <= m)
    decreases |keys|
  {
    if keys != [] && |sel| < m {
      ScanKeyValid(rows, sel, ps, KeyMatcher(keys[0]));
      ByKeysValid(rows, ScanKey(rows, sel, ps, KeyMatcher(keys[0])), keys[1..], ps, m);
    }
  }

  /** Scanning for one key keeps the selection valid and adds at most one index to it. */
  lemma ScanKeyValid(rows: seq<Row>, sel: seq<int>, ps: seq<Position>, matches: Row -> bool)
    requires ValidSel(rows, sel) && PositionsOk(rows, ps)
    ensures var t := ScanKey(rows, sel, ps, matches);
      ValidSel(rows, t) && sel <= t && |t| <= |sel| + 1
  {
    ScanKeySound(rows, sel, ps, matches);
    var t := ScanKey(rows, sel, ps, matches);
    if t != sel {
      var x := t[|sel|];
      assert t == sel + [x];
      TryAddValid(rows, sel, x);
    }
  }

  /** The row matches one of the keys. */
  predicate MatchesSome(row: Row, keys: seq<Key>) {
    exists key :: key in keys && MatchesKey(row, key)
  }

  lemma MatchesSomeTail(row: Row, keys: seq<Key>)
    requires keys != [] && MatchesSome(row, keys[1..])
    ensures MatchesSome(row, keys)
  {
    var key :| key in keys[1..] && MatchesKey(row, key);
    assert key in keys;
  }

  /** Every index the second phase appends is a row matching one of the previewed keys. */
  lemma {:induction false} ByKeysMatch(rows: seq<Row>, sel: seq<int>, keys: seq<Key>, ps: seq<Position>, m: int)
    requires PositionsOk(rows, ps)
    ensures var r := ByKeys(rows, sel, keys, ps, m);
      && sel <= r
      && (forall k :: |sel| <= k < |r| ==> 0 <= r[k] < |rows| && MatchesSome(Pad6(rows[r[k]]), keys))
    decreases |keys|
  {
    if keys != [] && |sel| < m {
      var t := ScanKey(rows, sel, ps, KeyMatcher(keys[0]));
      ScanKeySound(rows, sel, ps, KeyMatcher(keys[0]));
      ByKeysMatch(rows, t, keys[1..], ps, m);
      var r := ByKeys(rows, t, keys[1..], ps, m);
      forall k | |sel| <= k < |r|
        ensures 0 <= r[k] < |rows| && MatchesSome(Pad6(rows[r[k]]), keys)
      {
        if k < |t| {
          assert k == |sel| && r[k] == t[|sel|];
          assert KeyMatcher(keys[0])(Pad6(rows[r[k]]));
          assert keys[0] in keys;
        } else {
          MatchesSomeTail(Pad6(rows[r[k]]), keys);
        }
      }
    }
  }

  /**
   * The third phase appends queue entries, not beyond the batch size, and stops short of the
   * batch size only once every entry of the queue is chosen.
   */
  lemma {:induction false} ByQueueSound(rows: seq<Row>, sel: seq<int>, ps: seq<Position>, m: int)
    requires ValidSel(rows, sel) && PositionsOk(rows, ps)
    ensures var r := ByQueue(rows, sel, ps, m);
      && ValidSel(rows, r) && sel <= r
      && (|sel| <= m ==> |r| <= m)
      && (|r| >= m || forall j :: 0 <= j < |ps| ==> ps[j].index in r)
    decreases |ps|
  {
    if ps != [] && |sel| < m {
      var t := TryAdd(rows, sel, ps[0].index);
      TryAddValid(rows, sel, ps[0].index);
      assert PositionsOk(rows, ps[1..]);
      ByQueueSound(rows, t, ps[1..], m);
      var r := ByQueue(rows, t, ps[1..], m);
      assert ps[0].index in t;
      assert forall j :: 1 <= j < |ps| ==> ps[j] == ps[1..][j - 1];
    }
  }

  /**
   * The entries the third phase appends follow the queue: strictly increasing, and every queue
   * entry it leaves unchosen comes after all of them.
   */
  lemma {:induction false} ByQueueOrder(rows: seq<Row>, sel: seq<int>, ps: seq<Position>, m: int, lo: int)
    requires PositionsOk(rows, ps) && Increasing(ps)
    requires forall k :: 0 <= k < |ps| ==> lo < ps[k].index
    ensures QueueOrdered(sel, ps, ByQueue(rows, sel, ps, m), lo)
    decreases |ps|
  {
    if ps != [] && |sel| < m {
      var t := TryAdd(rows, sel, ps[0].index);
      var tail := ps[1..];
      assert PositionsOk(rows, tail) && Increasing(tail);
      assert forall j :: 0 <= j < |tail| ==> tail[j] == ps[j + 1];
      ByQueueOrder(rows, t, tail, m, ps[0].index);
      ByQueueOrderStep(rows, sel, ps, ByQueue(rows, t, tail, m), lo);
    }
  }

  /**
   * The order a queue run keeps: it extends `sel`, appends entries after `lo`, strictly
   * increasing, and every queue entry left out comes after all of them.
   */
  predicate QueueOrdered(sel: seq<int>, ps: seq<Position>, r: seq<int>, lo: int) {
    && sel <= r
    && (forall k :: |sel| <= k < |r| ==> lo < r[k])
    && (forall k, l :: |sel| <= k < l < |r| ==> r[k] < r[l])
    && (forall j :: 0 <= j < |ps| && ps[j].index !in r ==> forall k :: |sel| <= k < |r| ==> r[k] < ps[j].index)
  }

  /** The queue's head offered to the batch, then the rest of the queue in order, keeps the order. */
  lemma ByQueueOrderStep(rows: seq<Row>, sel: seq<int>, ps: seq<Position>, r: seq<int>, lo: int)
    requires ps != [] && PositionsOk(rows, ps) && Increasing(ps)
    requires forall k :: 0 <= k < |ps| ==> lo < ps[k].index
    requires QueueOrdered(TryAdd(rows, sel, ps[0].index), ps[1..], r, ps[0].index)
    ensures QueueOrdered(sel, ps, r, lo)
  {
    var h := ps[0].index;
    var t := TryAdd(rows, sel, h);
    assert sel <= t && |t| <= |sel| + 1;
    assert h in t;
    assert forall k :: |sel| <= k < |t| ==> r[k] == h by {
      forall k | |sel| <= k < |t| ensures r[k] == h {
        assert r[k] == t[k];
      }
    }
    forall k | |sel| <= k < |r| ensures lo < r[k] {
      if k >= |t| { assert h < r[k]; }
    }
    forall k, l | |sel| <= k < l < |r| ensures r[k] < r[l] {
      if k < |t| {
        assert r[k] == h && h < r[l];
      }
    }
    forall j | 0 <= j < |ps| && ps[j].index !in r ensures forall k :: |sel| <= k < |r| ==> r[k] < ps[j].index {
      assert j != 0 && ps[1..][j - 1] == ps[j];
      assert h < ps[j].index;
    }
  }

  /**
   * `_reserve_pendientes_for_user`, lines 62-95: the selected indices are distinct, in range and
   * pending; they come in three consecutive parts, the previewed indices, then rows matching a
   * previewed key, then a strictly increasing run from the queue after which no pending row
   * before any of its entries is left unchosen.
   */
  lemma SelectionSound(rows: seq<Row>, prefIdx: seq<int>, prefKeys: seq<Key>, limit: int)
    ensures var ps := PendingPositions(rows);
      var m := MaxItems(limit, |ps|);
      var s1 := ByIndices(rows, [], prefIdx, m);
      var s2 := ByKeys(rows, s1, prefKeys, ps, m);
      var sel := Selection(rows, prefIdx, prefKeys, limit);
      && ValidSel(rows, sel) && s1 <= s2 <= sel
      && (forall k :: 0 <= k < |s1| ==> sel[k] in prefIdx)
      && (forall k :: |s1| <= k < |s2| ==> MatchesSome(Pad6(rows[sel[k]]), prefKeys))
      && (forall k, l :: |s2| <= k < l < |sel| ==> sel[k] < sel[l])
      && (forall i :: 0 <= i < |rows| && IsPending(rows[i]) && i !in sel ==> forall k :: |s2| <= k < |sel| ==> sel[k] < i)
  {
    SelectionPhases(rows, prefIdx, prefKeys, limit);
    SelectionQueue(rows, prefIdx, prefKeys, limit);
  }

  /** The first two phases of the selection: previewed indices, then rows matching a previewed key. */
  lemma SelectionPhases(rows: seq<Row>, prefIdx: seq<int>, prefKeys: seq<Key>, limit: int)
    ensures var ps := PendingPositions(rows);
      var m := MaxItems(limit, |ps|);
      var s1 := ByIndices(rows, [], prefIdx, m);
      var s2 := ByKeys(rows, s1, prefKeys, ps, m);
      var sel := Selection(rows, prefIdx, prefKeys, limit);
      && ValidSel(rows, sel) && s1 <= s2 <= sel
      && (forall k :: 0 <= k < |s1| ==> sel[k] in prefIdx)
      && (forall k :: |s1| <= k < |s2| ==> MatchesSome(Pad6(rows[sel[k]]), prefKeys))
  {
    var ps := PendingPositions(rows);
    var m := MaxItems(limit, |ps|);
    ByIndicesSound(rows, [], prefIdx, m);
    var s1 := ByIndices(rows, [], prefIdx, m);
    ByKeysValid(rows, s1, prefKeys, ps, m);
    ByKeysMatch(rows, s1, prefKeys, ps, m);
    var s2 := ByKeys(rows, s1, prefKeys, ps, m);
    ByQueueSound(rows, s2, ps, m);
  }

  /** The third phase of the selection: a strictly increasing run leaving no earlier pending row behind. */
  lemma SelectionQueue(rows: seq<Row>, prefIdx: seq<int>, prefKeys: seq<Key>, limit: int)
    ensures var ps := PendingPositions(rows);
      var m := MaxItems(limit, |ps|);
      var s2 := ByKeys(rows, ByIndices(rows, [], prefIdx, m), prefKeys, ps, m);
      var sel := Selection(rows, prefIdx, prefKeys, limit);
      && (forall k, l :: |s2| <= k < l < |sel| ==> sel[k] < sel[l])
      && (forall i :: 0 <= i < |rows| && IsPending(rows[i]) && i !in sel ==> forall k :: |s2| <= k < |sel| ==> sel[k] < i)
  {
    var ps := PendingPositions(rows);
    var m := MaxItems(limit, |ps|);
    var s2 := ByKeys(rows, ByIndices(rows, [], prefIdx, m), prefKeys, ps, m);
    ByQueueOrder(rows, s2, ps, m, -1);
    var sel := ByQueue(rows, s2, ps, m);
    forall i | 0 <= i < |rows| && IsPending(rows[i]) && i !in sel
      ensures forall k :: |s2| <= k < |sel| ==> sel[k] < i
    {
      assert i in IndicesOf(ps);
      var j :| 0 <= j < |ps| && IndicesOf(ps)[j] == i;
      assert ps[j].index == i;
    }
  }

  /** A sequence without repetitions whose elements all occur in s is no longer than s. */
  lemma {:induction false} DistinctIncluded(t: seq<int>, s: seq<int>)
    requires forall k, l :: 0 <= k < l < |t| ==> t[k] != t[l]
    requires forall x :: x in t ==> x in s
    ensures |t| <= |s|
    decreases |t|
  {
    if t != [] {
      var front := t[..|t| - 1];
      var x := t[|t| - 1];
      assert x in t;
      var i :| 0 <= i < |s| && s[i] == x;
      var rest := s[..i] + s[i + 1..];
      forall y | y in front
        ensures y in rest
      {
        var k :| 0 <= k < |front| && front[k] == y;
        assert y != x && y in t;
        var j :| 0 <= j < |s| && s[j] == y;
        if j < i {
          assert rest[j] == y;
        } else {
          assert rest[j - 1] == y;
        }
      }
      DistinctIncluded(front, rest);
    }
  }

  /**
   * `_reserve_pendientes_for_user`, line 62: with a positive limit the batch holds
   * `min(limit, pending)` rows, with a zero limit every pending row, and with a negative one none.
   */
  lemma SelectionCount(rows: seq<Row>, prefIdx: seq<int>, prefKeys: seq<Key>, limit: int)
    ensures var p := |PendingPositions(rows)|;
      |Selection(rows, prefIdx, prefKeys, limit)| ==
        if limit == 0 then p else if limit < 0 then 0 else if limit < p then limit else p
  {
    var ps := PendingPositions(rows);
    var m := MaxItems(limit, |ps|);
    if m < 0 {
      assert ByIndices(rows, [], prefIdx, m) == [];
      assert ByKeys(rows, [], prefKeys, ps, m) == [];
    } else {
      SelectionFull(rows, prefIdx, prefKeys, limit);
    }
  }

  /** With room for m >= 0 rows the three phases fill the batch: m rows, never more than are pending. */
  lemma SelectionFull(rows: seq<Row>, prefIdx: seq<int>, prefKeys: seq<Key>, limit: int)
    requires MaxItems(limit, |PendingPositions(rows)|) >= 0
    ensures |Selection(rows, prefIdx, prefKeys, limit)| == MaxItems(limit, |PendingPositions(rows)|)
  {
    var ps := PendingPositions(rows);
    var m := MaxItems(limit, |ps|);
    var s1 := ByIndices(rows, [], prefIdx, m);
    var s2 := ByKeys(rows, s1, prefKeys, ps, m);
    var sel := Selection(rows, prefIdx, prefKeys, limit);
    ByIndicesSound(rows, [], prefIdx, m);
    ByKeysValid(rows, s1, prefKeys, ps, m);
    ByQueueSound(rows, s2, ps, m);
    if |sel| < m {
      var ix := IndicesOf(ps);
      assert forall x :: x in ix ==> x in sel;
      DistinctIncluded(ix, sel);
    }
  }
  // ---------------------------------------------------------------------------------------
  // The claim (`_reserve_pendientes_for_user`, lines 97-116)
  // ---------------------------------------------------------------------------------------

  /** The row a claim writes: the padded row with Estado "En contacto - <who>" and no note. */
  function ClaimedRow(row: Row, who: string): (r: Row)
    ensures |r| == NCOLS && r[ESTADO] == EN_CONTACTO_TAG + who && r[OBSERVACION] == ""
    ensures forall c :: 0 <= c < ESTADO ==> r[c] == Pad6(row)[c]
  {
    Pad6(row)[ESTADO := EN_CONTACTO_TAG + who][OBSERVACION := ""]
  }

  /** The store after a claim: the selected rows tagged, every other row as it was. */
  function ClaimRows(rows: seq<Row>, sel: seq<int>, who: string): seq<Row> {
    seq(|rows|, i requires 0 <= i < |rows| => if i in sel then ClaimedRow(rows[i], who) else rows[i])
  }

  /** The claimed batch: the tagged rows, in selection order. */
  function ClaimedBatch(rows: seq<Row>, sel: seq<int>, who: string): seq<Row>
    requires forall k :: 0 <= k < |sel| ==> 0 <= sel[k] < |rows|
  {
    seq(|sel|, k requires 0 <= k < |sel| => ClaimedRow(rows[sel[k]], who))
  }

  /** The tagging loop: each selected row padded, tagged for who and its note cleared, in place. */
  method TagSelected(rows: seq<Row>, sel: seq<int>, who: string) returns (newRows: seq<Row>, batch: seq<Row>)
    requires ValidSel(rows, sel)
    ensures newRows == ClaimRows(rows, sel, who)
    ensures batch == ClaimedBatch(rows, sel, who)
  {
    newRows := rows;
    batch := [];
    assert newRows == ClaimRows(rows, sel[..0], who);
    for k := 0 to |sel|
      invariant newRows == ClaimRows(rows, sel[..k], who)
      invariant batch == ClaimedBatch(rows, sel[..k], who)
    {
      var idx := sel[k];
      ClaimStep(rows, sel, who, k);
      var padded := ClaimedRow(newRows[idx], who);
      newRows := newRows[idx := padded];
      batch := batch + [padded];
    }
    assert sel[..|sel|] == sel;
  }

  /** One more selected position: its row is tagged, and the batch grows by it. */
  lemma ClaimStep(rows: seq<Row>, sel: seq<int>, who: string, k: nat)
    requires ValidSel(rows, sel) && k < |sel|
    ensures var idx := sel[k];
      && ClaimRows(rows, sel[..k], who)[idx] == rows[idx]
      && ClaimRows(rows, sel[..k + 1], who) == ClaimRows(rows, sel[..k], who)[idx := ClaimedRow(rows[idx], who)]
      && ClaimedBatch(rows, sel[..k + 1], who) == ClaimedBatch(rows, sel[..k], who) + [ClaimedRow(rows[idx], who)]
  {
    var idx := sel[k];
    assert sel[..k + 1] == sel[..k] + [idx];
    assert idx !in sel[..k];
  }

  /**
   * `_reserve_pendientes_for_user`: on a fresh read, select the batch; with nothing selected
   * nothing is written and the session is left alone. Otherwise the selected rows are tagged
   * "En contacto - <who>" with no note, the store is written once, the session holds the owner,
   * the tagged rows and their indices, and the preview is forgotten.
   */
  method ReservePendientes(ws: Worksheet, s: Session, uid: Option<int>, display: string, limit: int)
    returns (selectedRows: seq<Row>)
    modifies ws, s`reservedOwner, s`reservedRows, s`reservedIndices, s`previewKeys, s`previewLimit, s`previewIndices
    ensures var rows := ReadListaAny(old(ws.table));
      var sel := Selection(rows, old(s.previewIndices), old(s.previewKeys), limit);
      var who := CurrentUserLabel(uid, display);
      && (sel == [] ==> && selectedRows == [] && ws.table == old(ws.table) && ws.writes == old(ws.writes)
                        && unchanged(s))
      && ValidSel(rows, sel)
      && (sel != [] ==>
            && ws.table == [CSV_HEADERS] + ClaimRows(rows, sel, who) && ws.writes == old(ws.writes) + 1
            && selectedRows == ClaimedBatch(rows, sel, who)
            && s.reservedOwner == who && s.reservedRows == selectedRows && s.reservedIndices == sel
            && s.previewKeys == [] && s.previewIndices == [] && s.previewLimit == 0)
  {
    var allRows := ReadListaAny(ws.table);
    var positions, sel := SelectIndices(allRows, s.previewIndices, s.previewKeys, limit);
    if positions == [] {
      return [];
    }
    if sel == [] {
      return [];
    }
    var who := CurrentUserLabel(uid, display);
    selectedRows := CommitClaim(ws, s, allRows, sel, who);
  }

  /** The callbacks of the main menu's buttons. */
  const MENU_BUTTONS: seq<string> :=
    ["MENU:LISTA", "MENU:FILTRO:Pendiente", "MENU:FILTRO:Aceptado", "MENU:FILTRO:Rechazado", "MENU:ADD"]

  /**
   * `cmd_menu`: going back to the menu first releases whatever the session still holds, then
   * offers the menu, with the administration button only for an admin.
   */
  method CmdMenu(ws: Worksheet, s: Session, isAdmin: bool) returns (buttons: seq<string>)
    modifies ws, s`reservedRows, s`reservedIndices, s`reservedOwner
    ensures s.reservedRows == [] && s.reservedIndices == [] && s.reservedOwner == ""
    ensures ws.table == ReleasedTable(old(ws.table), old(s.reservedRows), old(s.reservedIndices), old(s.reservedOwner))
    ensures ws.writes == old(ws.writes) + ReleaseWrites(old(ws.table), old(s.reservedRows), old(s.reservedIndices), old(s.reservedOwner))
    ensures MENU_BUTTONS <= buttons && ("MENU:ADMIN" in buttons <==> isAdmin)
  {
    ReleaseReservation(ws, s);
    buttons := MENU_BUTTONS;
    if isAdmin {
      buttons := buttons + ["MENU:ADMIN"];
    }
  }

  /** Lines 100-115: tag the selected rows, write the store once and record the claim in the session. */
  method CommitClaim(ws: Worksheet, s: Session, allRows: seq<Row>, sel: seq<int>, who: string)
    returns (selectedRows: seq<Row>)
    requires ValidSel(allRows, sel) && Padded(allRows)
    modifies ws, s`reservedOwner, s`reservedRows, s`reservedIndices, s`previewKeys, s`previewLimit, s`previewIndices
    ensures && ws.table == [CSV_HEADERS] + ClaimRows(allRows, sel, who) && ws.writes == old(ws.writes) + 1
            && selectedRows == ClaimedBatch(allRows, sel, who)
            && s.reservedOwner == who && s.reservedRows == selectedRows && s.reservedIndices == sel
            && s.previewKeys == [] && s.previewIndices == [] && s.previewLimit == 0
  {
    s.reservedOwner := who;
    var newRows, batch := TagSelected(allRows, sel, who);
    assert Padded(newRows);
    SetListaAny(ws, newRows);
    s.reservedRows := batch;
    s.reservedIndices := sel;
    s.previewKeys := [];
    s.previewLimit := 0;
    s.previewIndices := [];
    return batch;
  }

  // ---------------------------------------------------------------------------------------
  // The preview (`on_menu_callback`, "MENU:FILTRO:Pendiente", lines 338-349)
  // ---------------------------------------------------------------------------------------

  /** At most the first five entries of the queue. */
  function Front(ps: seq<Position>): (shown: seq<Position>)
    ensures |shown| == if |ps| < 5 then |ps| else 5
  {
    ps[..if |ps| < 5 then |ps| else 5]
  }

  function RowsOf(ps: seq<Position>): seq<Row> {
    seq(|ps|, k requires 0 <= k < |ps| => ps[k].row)
  }

  function KeysOf(rows: seq<Row>): seq<Key> {
    seq(|rows|, k requires 0 <= k < |rows| => RowKey(rows[k]))
  }

  /**
   * The preview of the next batch: with no pending row the owner and the previewed indices are
   * dropped; otherwise the first five queue entries are shown and their keys, indices and number
   * remembered, and the owner dropped.
   */
  method PreviewPendientes(ws: Worksheet, s: Session) returns (preview: seq<Row>)
    requires s.reservedRows == []
    modifies s`previewKeys, s`previewIndices, s`previewLimit, s`reservedOwner
    ensures var ps := PendingPositions(ReadListaAny(ws.table));
      && s.reservedOwner == ""
      && (ps == [] ==> && preview == [] && s.previewIndices == []
                       && s.previewKeys == old(s.previewKeys) && s.previewLimit == old(s.previewLimit))
      && (ps != [] ==> && preview == RowsOf(Front(ps)) && s.previewIndices == IndicesOf(Front(ps))
                       && s.previewKeys == KeysOf(preview) && s.previewLimit == |preview|)
  {
    var allRows := ReadListaAny(ws.table);
    var positions := PendingPositionsOf(allRows);
    if positions == [] {
      s.reservedOwner := "";
      s.previewIndices := [];
      return [];
    }
    var shown := Front(positions);
    preview := RowsOf(shown);
    s.previewKeys := KeysOf(preview);
    s.previewIndices := IndicesOf(shown);
    s.previewLimit := |preview|;
    s.reservedOwner := "";
  }

  // ---------------------------------------------------------------------------------------
  // The held batch (`on_menu_callback`, "MENU:FILTRO:Pendiente" with a batch held, lines 314-337)
  // ---------------------------------------------------------------------------------------

  /**
   * The owner once a held batch is shown: a known owner is kept; with none, the owner named by the
   * first held row's "En contacto - " tag is adopted, and without such a tag it stays unknown.
   */
  function HeldOwner(owner: string, held: seq<Row>): (r: string)
    requires held != []
    ensures owner != "" ==> r == owner
    ensures owner == "" && !StartsWith(EstadoOf(held[0]), EN_CONTACTO_TAG) ==> r == ""
  {
    if owner != "" then owner
    else if StartsWith(EstadoOf(held[0]), EN_CONTACTO_TAG) then TagOwner(EstadoOf(held[0]))
    else ""
  }

  /** The listing of a held batch: its size, then one `_format_persona` line per held row. */
  function HeldBatchText(held: seq<Row>): string {
    "Tus pendientes asignados (" + IntToString(|held|) + "):\n\n"
      + Join(seq(|held|, k requires 0 <= k < |held| => Pagination.FormatPersona(held[k])), "\n")
  }

  /**
   * Asking for the pending rows while a batch is held shows that batch instead of a preview: the
   * owner is adopted from the first row's tag when unknown, the remembered preview is dropped
   * (keys, indices and batch size) and the held rows are listed. The store is not read.
   */
  method ShowHeldBatch(s: Session) returns (text: string)
    requires s.reservedRows != []
    modifies s`previewKeys, s`previewIndices, s`previewLimit, s`reservedOwner
    ensures s.reservedOwner == HeldOwner(old(s.reservedOwner), s.reservedRows)
    ensures s.previewKeys == [] && s.previewIndices == [] && s.previewLimit == 0
    ensures text == HeldBatchText(s.reservedRows)
  {
    var held := s.reservedRows;
    if s.reservedOwner == "" {
      var first := EstadoOf(held[0]);
      if StartsWith(first, EN_CONTACTO_TAG) {
        s.reservedOwner := TagOwner(first);
      }
    }
    s.previewKeys := [];
    s.previewLimit := 0;
    s.previewIndices := [];
    text := HeldBatchText(held);
  }

  /**
   * A batch claimed without recording its owner, as the legacy command does, gets back the
   * claimant as its owner the first time it is shown: the tag the claim wrote names them.
   */
  lemma HeldOwnerOfClaim(rows: seq<Row>, sel: seq<int>, who: string)
    requires ValidSel(rows, sel) && sel != [] && who != [] && Stripped(who)
    ensures HeldOwner("", ClaimedBatch(rows, sel, who)) == who
  {
    ClaimedEstado(rows[sel[0]], who);
    TagOwnerOf(who, "");
  }

  /** The first phase takes every index of a valid list that fits in the batch. */
  lemma {:induction false} ByIndicesAll(rows: seq<Row>, sel: seq<int>, prefs: seq<int>, m: int)
    requires ValidSel(rows, sel + prefs) && |sel + prefs| <= m
    ensures ByIndices(rows, sel, prefs, m) == sel + prefs
    decreases |prefs|
  {
    if prefs != [] {
      var all := sel + prefs;
      assert all[|sel|] == prefs[0];
      assert forall k :: 0 <= k < |sel| ==> all[k] == sel[k];
      assert Addable(rows, sel, prefs[0]);
      assert (sel + [prefs[0]]) + prefs[1..] == all;
      ByIndicesAll(rows, sel + [prefs[0]], prefs[1..], m);
    }
  }

  /**
   * The preview and the claim agree: claiming right after the preview, on the same store and
   * with the remembered batch size, reserves exactly the previewed rows, the first
   * `min(5, pending)` entries of the queue, in queue order.
   */
  lemma PreviewThenClaim(rows: seq<Row>)
    requires PendingPositions(rows) != []
    ensures var shown := Front(PendingPositions(rows));
      Selection(rows, IndicesOf(shown), KeysOf(RowsOf(shown)), |shown|) == IndicesOf(shown)
  {
    var ps := PendingPositions(rows);
    var shown := Front(ps);
    var ix := IndicesOf(shown);
    var m := MaxItems(|shown|, |ps|);
    assert m == |ix|;
    assert ValidSel(rows, [] + ix);
    ByIndicesAll(rows, [], ix, m);
    assert [] + ix == ix;
  }
  /** A claimed row is no longer pending: its status is the claim tag. */
  lemma ClaimedNotPending(row: Row, who: string)
    ensures !IsPending(ClaimedRow(row, who))
  {
    var r := ClaimedRow(row, who);
    assert Pad6(r) == r;
    assert Pad6(r)[ESTADO][0] == 'E' != PENDIENTE[0];
  }

  /**
   * Two claims one after the other never share a row: whatever the second one was previewed,
   * it selects none of the rows the first one tagged.
   */
  lemma SequentialClaimsDisjoint(rows: seq<Row>, sel: seq<int>, who: string,
                                 prefIdx: seq<int>, prefKeys: seq<Key>, limit: int)
    ensures var sel2 := Selection(ClaimRows(rows, sel, who), prefIdx, prefKeys, limit);
      forall k :: 0 <= k < |sel2| ==> sel2[k] !in sel
  {
    var claimed := ClaimRows(rows, sel, who);
    SelectionSound(claimed, prefIdx, prefKeys, limit);
    var sel2 := Selection(claimed, prefIdx, prefKeys, limit);
    forall k | 0 <= k < |sel2| ensures sel2[k] !in sel {
      if sel2[k] in sel {
        ClaimedNotPending(rows[sel2[k]], who);
      }
    }
  }

  // ---------------------------------------------------------------------------------------
  // A claim seen by the editor and by the release (bot/handlers/edit.py)
  // ---------------------------------------------------------------------------------------

  /** An owner label as `_current_user_label` makes it: non-empty, with no trailing whitespace. */
  predicate Label(who: string) {
    who != [] && !IsSpace(who[|who| - 1])
  }

  lemma NormEnContacto()
    ensures Norm("En contacto") == "en contacto"
  {
    var p := "En contacto";
    assert Stripped(p) && Trim(p) == p;
    forall i | 0 <= i < |p|
      ensures Norm(p)[i] == "en contacto"[i]
    {
      assert Norm(p)[i] == NormChar(p[i]);
    }
  }

  /** A claim tag for a label has no surrounding whitespace and is "en contacto" for that label. */
  lemma TagOfLabel(who: string)
    requires Label(who)
    ensures Stripped(EN_CONTACTO_TAG + who)
    ensures EnContacto(EN_CONTACTO_TAG + who) && TaggedFor(EN_CONTACTO_TAG + who, who)
  {
    var e := EN_CONTACTO_TAG + who;
    assert e[0] == 'E' && e[|e| - 1] == who[|who| - 1];
    var p := "En contacto";
    assert e[..|p|] == p;
    NormStartsWith(e, p);
    NormEnContacto();
    assert e[..|e|] == e;
  }

  /** The status a claim writes reads back as itself, "en contacto" and tagged for the claimant. */
  lemma ClaimedEstado(row: Row, who: string)
    requires Label(who)
    ensures EstadoOf(ClaimedRow(row, who)) == EN_CONTACTO_TAG + who
    ensures EnContacto(EN_CONTACTO_TAG + who) && TaggedFor(EN_CONTACTO_TAG + who, who)
  {
    TagOfLabel(who);
    var r := ClaimedRow(row, who);
    assert Pad6(r) == r;
  }

  /** One entry of the index pass on a row tagged for the known owner: it is kept, as it is. */
  lemma IncludeTagged(p: Pick, idx: int, row: Row, who: string)
    requires Label(who) && p.owner == who && 0 <= idx < |p.rows| && p.rows[idx] == ClaimedRow(row, who)
    ensures Include(p, idx) == Pick(p.rows, p.keptRows + [p.rows[idx]], p.keptIndices + [idx], who)
  {
    KeepsTagged(p, idx, row, who);
    var r := p.rows[idx];
    assert Pad6(r) == r;
    assert p.rows[idx := r] == p.rows;
    assert Adopted(EstadoOf(r), p.owner, p.owner) == who;
  }

  lemma KeepsTagged(p: Pick, idx: int, row: Row, who: string)
    requires Label(who) && p.owner == who && 0 <= idx < |p.rows| && p.rows[idx] == ClaimedRow(row, who)
    ensures Keeps(p, idx)
  {
    ClaimedEstado(row, who);
  }

  /** The rows of c at the given indices. */
  function Picked(c: seq<Row>, ix: seq<int>): seq<Row>
    requires forall j :: 0 <= j < |ix| ==> 0 <= ix[j] < |c|
  {
    seq(|ix|, j requires 0 <= j < |ix| => c[ix[j]])
  }

  /** The store a claim wrote holds, at each selected index, that row tagged for the claimant. */
  predicate TaggedAt(c: seq<Row>, rows: seq<Row>, sel: seq<int>, who: string) {
    && |c| == |rows|
    && forall j :: 0 <= j < |sel| ==> 0 <= sel[j] < |rows| && c[sel[j]] == ClaimedRow(rows[sel[j]], who)
  }

  /** The index pass over a list with one more index is one more `_include_by_index`. */
  lemma IncludeAllSnoc(p: Pick, s: seq<int>, k: nat)
    requires 0 < k <= |s|
    ensures IncludeAll(p, s[..k]) == Include(IncludeAll(p, s[..k - 1]), s[k - 1])
  {
    assert s[..k][..k - 1] == s[..k - 1];
  }

  /** One more entry of the index pass over the written store keeps that entry's row. */
  lemma IncludeClaimedStep(c: seq<Row>, sel: seq<int>, who: string, k: nat, row: Row)
    requires Label(who) && 0 < k <= |sel| && (forall j :: 0 <= j < |sel| ==> 0 <= sel[j] < |c|)
    requires c[sel[k - 1]] == ClaimedRow(row, who)
    requires IncludeAll(Pick(c, [], [], who), sel[..k - 1]) == Pick(c, Picked(c, sel[..k - 1]), sel[..k - 1], who)
    ensures IncludeAll(Pick(c, [], [], who), sel[..k]) == Pick(c, Picked(c, sel[..k]), sel[..k], who)
  {
    IncludeAllSnoc(Pick(c, [], [], who), sel, k);
    IncludeNext(c, sel, who, k, row);
  }

  lemma IncludeNext(c: seq<Row>, sel: seq<int>, who: string, k: nat, row: Row)
    requires Label(who) && 0 < k <= |sel| && (forall j :: 0 <= j < |sel| ==> 0 <= sel[j] < |c|)
    requires c[sel[k - 1]] == ClaimedRow(row, who)
    ensures Include(Pick(c, Picked(c, sel[..k - 1]), sel[..k - 1], who), sel[k - 1]) == Pick(c, Picked(c, sel[..k]), sel[..k], who)
  {
    var front := sel[..k - 1];
    var idx := sel[k - 1];
    IncludePicked(c, front, idx, who, row);
    Seqs.TakeSnoc(sel, k - 1);
    PickedSnoc(c, sel, k);
  }

  /** The index pass, having kept the rows at `front`, keeps a claimed row next. */
  lemma IncludePicked(c: seq<Row>, front: seq<int>, idx: int, who: string, row: Row)
    requires Label(who) && 0 <= idx < |c| && (forall j :: 0 <= j < |front| ==> 0 <= front[j] < |c|)
    requires c[idx] == ClaimedRow(row, who)
    ensures Include(Pick(c, Picked(c, front), front, who), idx) == Pick(c, Picked(c, front) + [c[idx]], front + [idx], who)
  {
    IncludeTagged(Pick(c, Picked(c, front), front, who), idx, row, who);
  }

  lemma PickedSnoc(c: seq<Row>, s: seq<int>, k: nat)
    requires 0 < k <= |s| && forall j :: 0 <= j < |s| ==> 0 <= s[j] < |c|
    ensures Picked(c, s[..k]) == Picked(c, s[..k - 1]) + [c[s[k - 1]]]
  {
  }

  /** The session a claim leaves: the index pass of `_active_reserved_rows` keeps the batch, entry by entry. */
  lemma {:induction false} IncludeClaimed(c: seq<Row>, rows: seq<Row>, sel: seq<int>, who: string, k: nat)
    requires TaggedAt(c, rows, sel, who) && Label(who) && k <= |sel|
    ensures IncludeAll(Pick(c, [], [], who), sel[..k]) == Pick(c, Picked(c, sel[..k]), sel[..k], who)
    decreases k
  {
    if k > 0 {
      IncludeClaimed(c, rows, sel, who, k - 1);
      IncludeClaimedStep(c, sel, who, k, rows[sel[k - 1]]);
    }
  }

  /**
   * Claim, then reconcile: right after a claim, `_active_reserved_rows` over the written store
   * answers exactly the claimed batch, keeps the owner and leaves the rows as written.
   */
  lemma ClaimThenReconcile(rows: seq<Row>, sel: seq<int>, who: string)
    requires Padded(rows) && ValidSel(rows, sel) && sel != [] && Label(who)
    ensures var claimed := ClaimRows(rows, sel, who);
      var batch := ClaimedBatch(rows, sel, who);
      && ActiveRowsOf(claimed, batch, sel, who) == batch
      && Reconcile(claimed, batch, sel, who) == Pick(claimed, batch, sel, who)
  {
    var claimed := ClaimRows(rows, sel, who);
    assert TaggedAt(claimed, rows, sel, who);
    IncludeClaimed(claimed, rows, sel, who, |sel|);
    assert sel[..|sel|] == sel;
    assert Picked(claimed, sel) == ClaimedBatch(rows, sel, who);
  }

  /** A claimed pending row, released: the original row with its note cleared. */
  lemma ReleasedClaimed(row: Row, who: string)
    requires |row| == NCOLS && IsPending(row)
    ensures Released(Pad6(ClaimedRow(row, who))) == row[OBSERVACION := ""]
  {
    assert Pad6(row) == row;
    var r := ClaimedRow(row, who);
    assert Pad6(r) == r;
    assert forall c :: 0 <= c < NCOLS ==> Released(r)[c] == row[OBSERVACION := ""][c];
  }

  /** The index set of a list of indices. */
  function Members(s: seq<int>): set<int> {
    set i | i in s
  }

  /** One entry of the release's index pass on a claimed pending row tagged for the known owner: it is reverted. */
  lemma ReleaseTagged(v: Undo, idx: int, row: Row, who: string)
    requires Label(who) && v.owner == who && 0 <= idx < |v.rows| && idx !in v.processed
    requires v.rows[idx] == ClaimedRow(row, who) && |row| == NCOLS && IsPending(row)
    ensures ReleaseAt(v, idx, who) == Undo(v.rows[idx := row[OBSERVACION := ""]], who, v.processed + {idx}, true)
  {
    ClaimedEstado(row, who);
    assert Reverts(v, idx, who);
    ReleasedClaimed(row, who);
  }

  /** Where the release's index pass stands after the first k indices a claim left. */
  predicate ReleasedUpTo(u: Undo, c: seq<Row>, rows: seq<Row>, sel: seq<int>, who: string, k: nat)
    requires |c| == |rows| && Padded(rows) && k <= |sel|
  {
    && u.owner == who && u.processed == Members(sel[..k]) && u.changed == (k > 0) && |u.rows| == |c|
    && forall i :: 0 <= i < |c| ==> u.rows[i] == if i in sel[..k] then rows[i][OBSERVACION := ""] else c[i]
  }

  /** The index pass over a list with one more index is one more `_release_at_index`, hinted with the known owner. */
  lemma ReleaseByIndexSnoc(u: Undo, s: seq<int>, k: nat)
    requires 0 < k <= |s|
    ensures var v := ReleaseByIndex(u, s[..k - 1]);
      ReleaseByIndex(u, s[..k]) == ReleaseAt(v, s[k - 1], v.owner)
  {
    assert s[..k][..k - 1] == s[..k - 1];
  }

  /** Releasing the next claimed index moves the release's index pass one entry on. */
  lemma ReleaseNext(v: Undo, c: seq<Row>, rows: seq<Row>, sel: seq<int>, who: string, k: nat)
    requires TaggedAt(c, rows, sel, who) && Padded(rows) && ValidSel(rows, sel) && Label(who) && 0 < k <= |sel|
    requires ReleasedUpTo(v, c, rows, sel, who, k - 1)
    ensures ReleasedUpTo(ReleaseAt(v, sel[k - 1], who), c, rows, sel, who, k)
  {
    var idx := sel[k - 1];
    assert idx !in sel[..k - 1];
    assert v.rows[idx] == ClaimedRow(rows[idx], who);
    ReleaseTagged(v, idx, rows[idx], who);
    ReleasedOneMore(v, c, rows, sel, who, k);
  }

  /** The pointwise picture after reverting the next claimed index. */
  lemma ReleasedOneMore(v: Undo, c: seq<Row>, rows: seq<Row>, sel: seq<int>, who: string, k: nat)
    requires |c| == |rows| && Padded(rows) && 0 < k <= |sel| && 0 <= sel[k - 1] < |c|
    requires ReleasedUpTo(v, c, rows, sel, who, k - 1)
    ensures var idx := sel[k - 1];
      ReleasedUpTo(Undo(v.rows[idx := rows[idx][OBSERVACION := ""]], who, v.processed + {idx}, true), c, rows, sel, who, k)
  {
    var front := sel[..k - 1];
    var idx := sel[k - 1];
    Seqs.TakeSnoc(sel, k - 1);
    assert Members(front) + {idx} == Members(sel[..k]);
  }

  lemma ReleaseClaimedStep(c: seq<Row>, rows: seq<Row>, sel: seq<int>, who: string, k: nat)
    requires TaggedAt(c, rows, sel, who) && Padded(rows) && ValidSel(rows, sel) && Label(who) && 0 < k <= |sel|
    requires ReleasedUpTo(ReleaseByIndex(Undo(c, who, {}, false), sel[..k - 1]), c, rows, sel, who, k - 1)
    ensures ReleasedUpTo(ReleaseByIndex(Undo(c, who, {}, false), sel[..k]), c, rows, sel, who, k)
  {
    ReleaseByIndexSnoc(Undo(c, who, {}, false), sel, k);
    ReleaseNext(ReleaseByIndex(Undo(c, who, {}, false), sel[..k - 1]), c, rows, sel, who, k);
  }

  /** The release's index pass over the indices a claim left reverts each of them in turn. */
  lemma {:induction false} ReleaseClaimed(c: seq<Row>, rows: seq<Row>, sel: seq<int>, who: string, k: nat)
    requires TaggedAt(c, rows, sel, who) && Padded(rows) && ValidSel(rows, sel) && Label(who) && k <= |sel|
    ensures ReleasedUpTo(ReleaseByIndex(Undo(c, who, {}, false), sel[..k]), c, rows, sel, who, k)
    decreases k
  {
    if k == 0 {
      assert Members(sel[..0]) == {};
    } else {
      ReleaseClaimed(c, rows, sel, who, k - 1);
      ReleaseClaimedStep(c, rows, sel, who, k);
    }
  }

  /** The key pass does nothing when no row left to it carries the owner's tag. */
  lemma {:induction false} KeyPassIdle(u: Undo, cached: seq<Row>)
    requires Padded(u.rows) && u.owner != ""
    requires forall i :: 0 <= i < |u.rows| && i !in u.processed ==> !TaggedFor(EstadoOf(u.rows[i]), u.owner)
    ensures ReleaseAllByKey(u, cached) == u
    decreases |cached|
  {
    if cached != [] {
      KeyPassIdle(u, cached[..|cached| - 1]);
      var idx := FirstKeyHit(u.rows, cached[|cached| - 1]);
      if 0 <= idx && idx !in u.processed {
        assert Pad6(u.rows[idx]) == u.rows[idx];
        assert u.rows[idx := Pad6(u.rows[idx])] == u.rows;
        assert !Reverts(u, idx, CachedHint(u, cached[|cached| - 1]));
      }
    }
  }

  /** The store a claim writes carries, at each selected index, that row tagged for the claimant. */
  lemma ClaimRowsTagged(rows: seq<Row>, sel: seq<int>, who: string)
    requires ValidSel(rows, sel)
    ensures TaggedAt(ClaimRows(rows, sel, who), rows, sel, who)
  {
    var c := ClaimRows(rows, sel, who);
    forall j | 0 <= j < |sel|
      ensures c[sel[j]] == ClaimedRow(rows[sel[j]], who)
    {
      assert sel[j] in sel;
    }
  }

  /** The index pass over every claimed index leaves the rows the claim started from, notes cleared, and nothing tagged for the claimant. */
  lemma ReleasedAll(u: Undo, rows: seq<Row>, sel: seq<int>, who: string)
    requires Padded(rows) && ValidSel(rows, sel) && sel != [] && Label(who)
    requires forall i :: 0 <= i < |rows| && i !in sel ==> !TaggedFor(EstadoOf(rows[i]), who)
    requires ReleasedUpTo(u, ClaimRows(rows, sel, who), rows, sel, who, |sel|)
    ensures u.changed && u.owner == who && Padded(u.rows)
    ensures u.rows == seq(|rows|, i requires 0 <= i < |rows| => if i in sel then rows[i][OBSERVACION := ""] else rows[i])
    ensures forall i :: 0 <= i < |u.rows| && i !in u.processed ==> !TaggedFor(EstadoOf(u.rows[i]), u.owner)
  {
    assert sel[..|sel|] == sel;
    forall i | 0 <= i < |u.rows| && i !in u.processed
      ensures u.rows[i] == rows[i]
    {
      assert i !in sel;
    }
  }

  /**
   * Claim, then release: when the claimant holds no other row tagged for them, releasing the
   * session a claim leaves puts every claimed row back as it was before the claim ("Pendiente"),
   * with its note cleared, leaves every other row alone, and reports a change (so the store is
   * written).
   */
  lemma ClaimThenRelease(rows: seq<Row>, sel: seq<int>, who: string)
    requires Padded(rows) && ValidSel(rows, sel) && sel != [] && Label(who)
    requires forall i :: 0 <= i < |rows| && i !in sel ==> !TaggedFor(EstadoOf(rows[i]), who)
    ensures var u := Release(ClaimRows(rows, sel, who), ClaimedBatch(rows, sel, who), sel, who);
      && u.changed
      && u.rows == seq(|rows|, i requires 0 <= i < |rows| => if i in sel then rows[i][OBSERVACION := ""] else rows[i])
  {
    var claimed := ClaimRows(rows, sel, who);
    ClaimRowsTagged(rows, sel, who);
    ReleaseClaimed(claimed, rows, sel, who, |sel|);
    assert sel[..|sel|] == sel;
    var u := ReleaseByIndex(Undo(claimed, who, {}, false), sel);
    ReleasedAll(u, rows, sel, who);
    KeyPassIdle(u, ClaimedBatch(rows, sel, who));
  }
}
