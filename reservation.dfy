/**
 * Reconciling and releasing a claimed batch (bot/handlers/edit.py, lines 21-140). A claim leaves
 * in the operator's session the claimed rows, their store indices and the owner written in the
 * tag "En contacto - <owner>". Both operations re-locate each remembered row, by its index first
 * and by its business key (phone, or non-empty DNI) after, and act only on rows still
 * "en contacto" for that owner.
 *
 * Each operation is a fold over the remembered entries (`Include`, `ReleaseAt`), run by a method
 * that also updates the session and the store the way the handler does.
 */
module Reservation {
  import opened Wrappers
  import opened Text
  import opened Config
  import opened Lista
  import opened SheetStore
  import opened UserData

  /** `_estado_es_en_contacto`: the normalised status starts with "en contacto". */
  predicate EnContacto(v: string) {
    StartsWith(Norm(v), "en contacto")
  }

  /** The trimmed Estado of a row. */
  function EstadoOf(row: Row): string {
    Trim(Pad6(row)[ESTADO])
  }

  /** The status carries the claim tag of `owner` (a prefix test, as the handler writes it). */
  predicate TaggedFor(estado: string, owner: string) {
    StartsWith(estado, EN_CONTACTO_TAG + owner)
  }

  /** The owner written after the tag: the text following "En contacto - ", trimmed. */
  function TagOwner(estado: string): string
    requires StartsWith(estado, EN_CONTACTO_TAG)
  {
    Trim(estado[|EN_CONTACTO_TAG|..])
  }

  /** A tag with an owner that has no surrounding spaces names that owner back. */
  lemma TagOwnerOf(owner: string, rest: string)
    requires Stripped(owner) && |owner| > 0
    ensures StartsWith(EN_CONTACTO_TAG + owner, EN_CONTACTO_TAG)
    ensures TagOwner(EN_CONTACTO_TAG + owner) == owner
  {
    assert (EN_CONTACTO_TAG + owner)[|EN_CONTACTO_TAG|..] == owner;
  }

  /** `_find_row_by_keys`: the first row whose phone equals the target's, or whose DNI equals a non-empty target DNI. */
  method FindRowByKeys(allRows: seq<Row>, target: Row) returns (index: int, current: Option<Row>)
    ensures index == FirstKeyHit(allRows, target)
    ensures current == if index < 0 then None else Some(Pad6(allRows[index]))
  {
    var tel := KeyTel(target);
    var dni := KeyDni(target);
    var i := 0;
    while i < |allRows|
      invariant 0 <= i <= |allRows|
      invariant forall j :: 0 <= j < i ==> !KeyHit(allRows[j], tel, dni)
    {
      if KeyHit(allRows[i], tel, dni) {
        var padded := Pad6(allRows[i]);
        return i, Some(padded);
      }
      i := i + 1;
    }
    return -1, None;
  }

  /** No owner to check, or the status carries that owner's tag. */
  predicate OwnerAccepts(estado: string, owner: string) {
    owner == "" || TaggedFor(estado, owner)
  }

  /** The owner known after acting on a row: the one in its tag when none was known, else the same. */
  function Adopted(estado: string, current: string, owner: string): string {
    if current == "" && StartsWith(estado, EN_CONTACTO_TAG) then TagOwner(estado) else owner
  }

  // ---------------------------------------------------------------------------------------
  // Reconciliation (`_active_reserved_rows`)
  // ---------------------------------------------------------------------------------------

  /** The working rows, the rows and store indices kept active so far, and the known owner. */
  datatype Pick = Pick(rows: seq<Row>, keptRows: seq<Row>, keptIndices: seq<int>, owner: string)

  /**
   * `_include_by_index`: an in-range row still "en contacto" is kept (padded) when it carries the
   * known owner's tag; with no known owner it is kept and the owner in its tag, if any, adopted.
   */
  function Include(p: Pick, idx: int): Pick {
    if Keeps(p, idx) then
      var padded := Pad6(p.rows[idx]);
      Pick(p.rows[idx := padded], p.keptRows + [padded], p.keptIndices + [idx],
           Adopted(EstadoOf(p.rows[idx]), p.owner, p.owner))
    else p
  }

  /** Whether `_include_by_index` keeps idx. */
  predicate Keeps(p: Pick, idx: int) {
    && 0 <= idx < |p.rows|
    && EnContacto(EstadoOf(p.rows[idx]))
    && OwnerAccepts(EstadoOf(p.rows[idx]), p.owner)
  }

  /** The index pass, over the remembered indices in order. */
  function IncludeAll(p: Pick, indices: seq<int>): Pick
    decreases |indices|
  {
    if indices == [] then p
    else Include(IncludeAll(p, indices[..|indices| - 1]), indices[|indices| - 1])
  }

  /** One entry of the key pass: re-locate the cached row by key, pad it in place and include it. */
  function IncludeByKey(p: Pick, cached: Row): Pick {
    var idx := FirstKeyHit(p.rows, cached);
    if idx < 0 then p
    else Include(p.(rows := p.rows[idx := Pad6(p.rows[idx])]), idx)
  }

  /** The key pass, over the cached rows in order. */
  function IncludeAllByKey(p: Pick, cached: seq<Row>): Pick
    decreases |cached|
  {
    if cached == [] then p
    else IncludeByKey(IncludeAllByKey(p, cached[..|cached| - 1]), cached[|cached| - 1])
  }

  /** The reconciliation of a non-empty session: the index pass, and the key pass only if that kept nothing. */
  function Reconcile(rows: seq<Row>, reserved: seq<Row>, indices: seq<int>, owner: string): Pick {
    var byIndex := IncludeAll(Pick(rows, [], [], owner), indices);
    if byIndex.keptRows == [] && reserved != [] then IncludeAllByKey(byIndex, reserved) else byIndex
  }

  /** The rows `_active_reserved_rows` returns (none for a session holding no claim). */
  function ActiveRowsOf(rows: seq<Row>, reserved: seq<Row>, indices: seq<int>, owner: string): seq<Row> {
    if reserved == [] && indices == [] then [] else Reconcile(rows, reserved, indices, owner).keptRows
  }

  /** A kept entry: an in-range row, padded, still "en contacto", and tagged for the owner when one was known. */
  predicate KeptEntry(rows0: seq<Row>, owner0: string, idx: int, row: Row) {
    0 <= idx < |rows0| && row == Pad6(rows0[idx]) && EnContacto(EstadoOf(row))
    && (owner0 != "" ==> TaggedFor(EstadoOf(row), owner0))
  }

  /** What the reconciliation keeps true: rows are only padded, every kept entry is one, a known owner stays. */
  predicate PickSound(rows0: seq<Row>, owner0: string, p: Pick) {
    && |p.rows| == |rows0|
    && (forall i :: 0 <= i < |rows0| ==> p.rows[i] == rows0[i] || p.rows[i] == Pad6(rows0[i]))
    && |p.keptRows| == |p.keptIndices|
    && (forall k :: 0 <= k < |p.keptRows| ==> KeptEntry(rows0, owner0, p.keptIndices[k], p.keptRows[k]))
    && (owner0 != "" ==> p.owner == owner0)
  }

  lemma PadTwice(row: Row)
    ensures Pad6(Pad6(row)) == Pad6(row)
  {
  }

  lemma IncludeSound(rows0: seq<Row>, owner0: string, p: Pick, idx: int)
    requires PickSound(rows0, owner0, p)
    ensures PickSound(rows0, owner0, Include(p, idx))
  {
    if 0 <= idx < |p.rows| {
      PadTwice(rows0[idx]);
      assert Pad6(p.rows[idx]) == Pad6(rows0[idx]);
      PadTwice(Pad6(rows0[idx]));
      var q := Include(p, idx);
      if q != p {
        assert q.keptRows == p.keptRows + [Pad6(rows0[idx])];
        forall i | 0 <= i < |rows0|
          ensures q.rows[i] == rows0[i] || q.rows[i] == Pad6(rows0[i])
        {
        }
      }
    }
  }

  lemma {:induction false} IncludeAllSound(rows0: seq<Row>, owner0: string, p: Pick, indices: seq<int>)
    requires PickSound(rows0, owner0, p)
    ensures PickSound(rows0, owner0, IncludeAll(p, indices))
  {
    if indices != [] {
      IncludeAllSound(rows0, owner0, p, indices[..|indices| - 1]);
      IncludeSound(rows0, owner0, IncludeAll(p, indices[..|indices| - 1]), indices[|indices| - 1]);
    }
  }

  /** One inclusion leaves the batch alone or appends the padded row and its index. */
  lemma IncludeAppends(p: Pick, idx: int)
    ensures Include(p, idx) == p
      || (Include(p, idx).keptRows == p.keptRows + [Pad6(p.rows[idx])]
          && Include(p, idx).keptIndices == p.keptIndices + [idx])
  {
  }

  /** The index pass only appends, and only remembered indices. */
  lemma {:induction false} IncludeAllExtends(p: Pick, indices: seq<int>)
    requires |p.keptRows| == |p.keptIndices|
    ensures var q := IncludeAll(p, indices);
      && |q.keptRows| == |q.keptIndices|
      && |p.keptRows| <= |q.keptRows| && q.keptRows[..|p.keptRows|] == p.keptRows
      && forall k :: |p.keptIndices| <= k < |q.keptIndices| ==> q.keptIndices[k] in indices
  {
    if indices != [] {
      var init := indices[..|indices| - 1];
      var last := indices[|indices| - 1];
      IncludeAllExtends(p, init);
      var mid := IncludeAll(p, init);
      IncludeAppends(mid, last);
      var q := Include(mid, last);
      assert q == IncludeAll(p, indices);
      assert q.keptRows[..|p.keptRows|] == mid.keptRows[..|p.keptRows|];
      forall k | |p.keptIndices| <= k < |q.keptIndices|
        ensures q.keptIndices[k] in indices
      {
        if k < |mid.keptIndices| {
          assert q.keptIndices[k] == mid.keptIndices[k];
          assert mid.keptIndices[k] in init;
        } else {
          assert q.keptIndices[k] == last;
        }
      }
    }
  }

  lemma IncludeByKeySound(rows0: seq<Row>, owner0: string, p: Pick, cached: Row)
    requires PickSound(rows0, owner0, p)
    ensures PickSound(rows0, owner0, IncludeByKey(p, cached))
  {
    var idx := FirstKeyHit(p.rows, cached);
    if idx >= 0 {
      PadTwice(rows0[idx]);
      var p1 := p.(rows := p.rows[idx := Pad6(p.rows[idx])]);
      assert PickSound(rows0, owner0, p1);
      IncludeSound(rows0, owner0, p1, idx);
    }
  }

  lemma {:induction false} IncludeAllByKeySound(rows0: seq<Row>, owner0: string, p: Pick, cached: seq<Row>)
    requires PickSound(rows0, owner0, p)
    ensures PickSound(rows0, owner0, IncludeAllByKey(p, cached))
  {
    if cached != [] {
      IncludeAllByKeySound(rows0, owner0, p, cached[..|cached| - 1]);
      IncludeByKeySound(rows0, owner0, IncludeAllByKey(p, cached[..|cached| - 1]), cached[|cached| - 1]);
    }
  }

  /**
   * What reconciliation promises: the store rows are at most padded; every active row is an
   * in-range store row still "en contacto", tagged for the owner when one was known; a known
   * owner is kept; and when the index pass kept something, the key pass never ran, so every
   * active index is a remembered one.
   */
  lemma ReconcileSound(rows: seq<Row>, reserved: seq<Row>, indices: seq<int>, owner: string)
    ensures PickSound(rows, owner, Reconcile(rows, reserved, indices, owner))
    ensures IncludeAll(Pick(rows, [], [], owner), indices).keptRows != [] ==>
      forall k :: 0 <= k < |Reconcile(rows, reserved, indices, owner).keptIndices| ==>
        Reconcile(rows, reserved, indices, owner).keptIndices[k] in indices
  {
    var p0 := Pick(rows, [], [], owner);
    assert PickSound(rows, owner, p0);
    IncludeAllSound(rows, owner, p0, indices);
    IncludeAllExtends(p0, indices);
    IncludeAllByKeySound(rows, owner, IncludeAll(p0, indices), reserved);
  }

  /** On a padded store (what `read_lista_any` returns) reconciliation leaves the rows as they are. */
  lemma ReconcileKeepsPaddedRows(rows: seq<Row>, reserved: seq<Row>, indices: seq<int>, owner: string)
    requires Padded(rows)
    ensures Reconcile(rows, reserved, indices, owner).rows == rows
  {
    ReconcileSound(rows, reserved, indices, owner);
    var p := Reconcile(rows, reserved, indices, owner);
    forall i | 0 <= i < |rows|
      ensures p.rows[i] == rows[i]
    {
      PadTwice(rows[i]);
    }
  }

  /** A remembered position that still names an in-range row "en contacto" tagged for the owner. */
  predicate Qualifies(rows: seq<Row>, owner: string, idx: int) {
    0 <= idx < |rows| && EnContacto(EstadoOf(rows[idx])) && TaggedFor(EstadoOf(rows[idx]), owner)
  }

  /** The qualifying positions among idxs, in their order and with their repeats. */
  function Qualifying(rows: seq<Row>, owner: string, idxs: seq<int>): (r: seq<int>)
    ensures forall k :: 0 <= k < |r| ==> r[k] in idxs && Qualifies(rows, owner, r[k])
    ensures forall i :: i in idxs && Qualifies(rows, owner, i) ==> i in r
    decreases |idxs|
  {
    if idxs == [] then []
    else
      var init := idxs[..|idxs| - 1];
      var last := idxs[|idxs| - 1];
      assert idxs == init + [last];
      Qualifying(rows, owner, init) + (if Qualifies(rows, owner, last) then [last] else [])
  }

  /** The position each cached row is found at by key (-1 when none). */
  function KeyHits(rows: seq<Row>, cached: seq<Row>): seq<int> {
    seq(|cached|, k requires 0 <= k < |cached| => FirstKeyHit(rows, cached[k]))
  }

  lemma KeyHitsInit(rows: seq<Row>, cached: seq<Row>)
    requires cached != []
    ensures KeyHits(rows, cached) == KeyHits(rows, cached[..|cached| - 1]) + [FirstKeyHit(rows, cached[|cached| - 1])]
  {
  }

  /** Two stores whose rows hit the same keys find a cached row at the same position. */
  lemma FirstKeyHitSame(a: seq<Row>, b: seq<Row>, cached: Row)
    requires |a| == |b|
    requires forall i :: 0 <= i < |a| ==>
      (KeyHit(a[i], KeyTel(cached), KeyDni(cached)) <==> KeyHit(b[i], KeyTel(cached), KeyDni(cached)))
    ensures FirstKeyHit(a, cached) == FirstKeyHit(b, cached)
  {
  }

  /** With a known owner, one inclusion keeps idx exactly when it qualifies against the original rows. */
  lemma IncludeExact(rows0: seq<Row>, owner: string, p: Pick, idx: int)
    requires owner != "" && PickSound(rows0, owner, p)
    ensures Include(p, idx).keptIndices == p.keptIndices + (if Qualifies(rows0, owner, idx) then [idx] else [])
  {
    if 0 <= idx < |p.rows| {
      PadTwice(rows0[idx]);
      assert EstadoOf(p.rows[idx]) == EstadoOf(rows0[idx]);
    }
  }

  lemma {:induction false} IncludeAllExact(rows0: seq<Row>, owner: string, p: Pick, indices: seq<int>)
    requires owner != "" && PickSound(rows0, owner, p)
    ensures IncludeAll(p, indices).keptIndices == p.keptIndices + Qualifying(rows0, owner, indices)
  {
    if indices != [] {
      var init := indices[..|indices| - 1];
      IncludeAllExact(rows0, owner, p, init);
      IncludeAllSound(rows0, owner, p, init);
      IncludeExact(rows0, owner, IncludeAll(p, init), indices[|indices| - 1]);
    }
  }

  /** With a known owner, one key entry keeps the cached row's key position exactly when it qualifies. */
  lemma IncludeByKeyExact(rows0: seq<Row>, owner: string, p: Pick, cached: Row)
    requires owner != "" && PickSound(rows0, owner, p)
    ensures var at := FirstKeyHit(rows0, cached);
      IncludeByKey(p, cached).keptIndices == p.keptIndices + (if Qualifies(rows0, owner, at) then [at] else [])
  {
    forall i | 0 <= i < |rows0|
      ensures KeyHit(p.rows[i], KeyTel(cached), KeyDni(cached)) <==> KeyHit(rows0[i], KeyTel(cached), KeyDni(cached))
    {
      PadTwice(rows0[i]);
    }
    FirstKeyHitSame(p.rows, rows0, cached);
    var idx := FirstKeyHit(p.rows, cached);
    if idx >= 0 {
      PadTwice(rows0[idx]);
      var p1 := p.(rows := p.rows[idx := Pad6(p.rows[idx])]);
      assert PickSound(rows0, owner, p1);
      IncludeExact(rows0, owner, p1, idx);
    }
  }

  lemma {:induction false} IncludeAllByKeyExact(rows0: seq<Row>, owner: string, p: Pick, cached: seq<Row>)
    requires owner != "" && PickSound(rows0, owner, p)
    ensures IncludeAllByKey(p, cached).keptIndices == p.keptIndices + Qualifying(rows0, owner, KeyHits(rows0, cached))
  {
    if cached != [] {
      var init := cached[..|cached| - 1];
      IncludeAllByKeyExact(rows0, owner, p, init);
      IncludeAllByKeySound(rows0, owner, p, init);
      IncludeByKeyAppends(rows0, owner, p, IncludeAllByKey(p, init), cached);
    }
  }

  /** The inductive step of `IncludeAllByKeyExact`: one more cached row appends its qualifying key position. */
  lemma IncludeByKeyAppends(rows0: seq<Row>, owner: string, p: Pick, q: Pick, cached: seq<Row>)
    requires owner != "" && PickSound(rows0, owner, q) && cached != []
    requires q.keptIndices == p.keptIndices + Qualifying(rows0, owner, KeyHits(rows0, cached[..|cached| - 1]))
    ensures IncludeByKey(q, cached[|cached| - 1]).keptIndices == p.keptIndices + Qualifying(rows0, owner, KeyHits(rows0, cached))
  {
    var c, hits := cached[|cached| - 1], KeyHits(rows0, cached[..|cached| - 1]);
    var at := FirstKeyHit(rows0, c);
    var tail := if Qualifies(rows0, owner, at) then [at] else [];
    IncludeByKeyExact(rows0, owner, q, c);
    KeyHitsInit(rows0, cached);
    QualifyingSnoc(rows0, owner, hits, at);
    AppendAssoc(p.keptIndices, Qualifying(rows0, owner, hits), tail);
  }

  lemma AppendAssoc<T>(a: seq<T>, b: seq<T>, c: seq<T>)
    ensures (a + b) + c == a + (b + c)
  {
  }

  lemma QualifyingSnoc(rows: seq<Row>, owner: string, idxs: seq<int>, x: int)
    ensures Qualifying(rows, owner, idxs + [x])
      == Qualifying(rows, owner, idxs) + (if Qualifies(rows, owner, x) then [x] else [])
  {
    assert (idxs + [x])[..|idxs|] == idxs;
  }

  /**
   * With a known owner, reconciliation is exact: it keeps the remembered indices that still
   * qualify, in order and with repeats; only when none does and rows were cached, it keeps
   * instead the qualifying positions the cached rows are found at by key. Each kept row is the
   * padded store row at its index.
   */
  lemma ReconcileExact(rows: seq<Row>, reserved: seq<Row>, indices: seq<int>, owner: string)
    requires owner != ""
    ensures var p := Reconcile(rows, reserved, indices, owner);
      var byIndex := Qualifying(rows, owner, indices);
      && p.keptIndices == (if byIndex == [] && reserved != [] then Qualifying(rows, owner, KeyHits(rows, reserved)) else byIndex)
      && |p.keptRows| == |p.keptIndices|
      && forall k :: 0 <= k < |p.keptRows| ==> p.keptRows[k] == Pad6(rows[p.keptIndices[k]])
  {
    var p0 := Pick(rows, [], [], owner);
    assert PickSound(rows, owner, p0);
    IncludeAllExact(rows, owner, p0, indices);
    IncludeAllSound(rows, owner, p0, indices);
    IncludeAllByKeyExact(rows, owner, IncludeAll(p0, indices), reserved);
    ReconcileSound(rows, reserved, indices, owner);
  }

  /** `_include_by_index`, on the working state and the session's owner. */
  method IncludeStep(s: Session, p: Pick, idx: int) returns (q: Pick)
    requires s.reservedOwner == p.owner
    modifies s`reservedOwner
    ensures q == Include(p, idx) && s.reservedOwner == q.owner
  {
    q := p;
    if !(0 <= idx < |p.rows|) {
      return;
    }
    var padded := Pad6(p.rows[idx]);
    var estado := EstadoOf(p.rows[idx]);
    if !EnContacto(estado) {
      return;
    }
    var owner := p.owner;
    if owner != "" {
      if !StartsWith(estado, EN_CONTACTO_TAG + owner) {
        return;
      }
    } else if StartsWith(estado, EN_CONTACTO_TAG) {
      owner := TagOwner(estado);
      s.reservedOwner := owner;
    }
    q := Pick(p.rows[idx := padded], p.keptRows + [padded], p.keptIndices + [idx], owner);
  }

  /** The index pass of `_active_reserved_rows`. */
  method IndexPass(s: Session, p0: Pick, indices: seq<int>) returns (p: Pick)
    requires s.reservedOwner == p0.owner
    modifies s`reservedOwner
    ensures p == IncludeAll(p0, indices) && s.reservedOwner == p.owner
  {
    p := p0;
    for i := 0 to |indices|
      invariant p == IncludeAll(p0, indices[..i]) && s.reservedOwner == p.owner
    {
      assert indices[..i + 1][..i] == indices[..i];
      p := IncludeStep(s, p, indices[i]);
    }
    assert indices[..|indices|] == indices;
  }

  /** The key pass of `_active_reserved_rows`: each cached row re-located by key, padded in place and included. */
  method KeyPass(s: Session, p0: Pick, reserved: seq<Row>) returns (p: Pick)
    requires s.reservedOwner == p0.owner
    modifies s`reservedOwner
    ensures p == IncludeAllByKey(p0, reserved) && s.reservedOwner == p.owner
  {
    p := p0;
    for i := 0 to |reserved|
      invariant p == IncludeAllByKey(p0, reserved[..i]) && s.reservedOwner == p.owner
    {
      assert reserved[..i + 1][..i] == reserved[..i];
      var idx, current := FindRowByKeys(p.rows, reserved[i]);
      if idx < 0 || current.None? {
        continue;
      }
      p := p.(rows := p.rows[idx := current.value]);
      p := IncludeStep(s, p, idx);
    }
    assert reserved[..|reserved|] == reserved;
  }

  /**
   * `_active_reserved_rows`. A session holding no claim gives no rows and is left alone.
   * Otherwise the session's batch becomes the active rows and indices, and the owner is dropped
   * when nothing stayed active. `rows` is the caller's list after the in-place padding.
   */
  method ActiveReservedRows(s: Session, allRows: seq<Row>) returns (active: seq<Row>, rows: seq<Row>)
    modifies s`reservedRows, s`reservedIndices, s`reservedOwner
    ensures active == ActiveRowsOf(allRows, old(s.reservedRows), old(s.reservedIndices), old(s.reservedOwner))
    ensures old(s.reservedRows) == [] && old(s.reservedIndices) == [] ==>
      rows == allRows && unchanged(s)
    ensures !(old(s.reservedRows) == [] && old(s.reservedIndices) == []) ==>
      var p := Reconcile(allRows, old(s.reservedRows), old(s.reservedIndices), old(s.reservedOwner));
      rows == p.rows && s.reservedRows == p.keptRows && s.reservedIndices == p.keptIndices
      && s.reservedOwner == (if p.keptRows == [] then "" else p.owner)
  {
    var reserved := s.reservedRows;
    var indices := s.reservedIndices;
    if reserved == [] && indices == [] {
      return [], allRows;
    }
    var p := IndexPass(s, Pick(allRows, [], [], s.reservedOwner), indices);
    if p.keptRows == [] && reserved != [] {
      p := KeyPass(s, p, reserved);
    }
    s.reservedRows := p.keptRows;
    s.reservedIndices := p.keptIndices;
    if p.keptRows == [] {
      s.reservedOwner := "";
    }
    return p.keptRows, p.rows;
  }

  // ---------------------------------------------------------------------------------------
  // Release (`release_reservation`)
  // ---------------------------------------------------------------------------------------

  /** The working rows, the known owner, the store indices already reverted and whether any was. */
  datatype Undo = Undo(rows: seq<Row>, owner: string, processed: set<int>, changed: bool)

  /** A reverted row: back to "Pendiente", with its note cleared. */
  function Released(row: Row): (r: Row)
    requires |row| == NCOLS
    ensures |r| == NCOLS && r[ESTADO] == PENDIENTE && r[OBSERVACION] == ""
    ensures forall c :: 0 <= c < ESTADO ==> r[c] == row[c]
  {
    row[ESTADO := PENDIENTE][OBSERVACION := ""]
  }

  /**
   * `_release_at_index`: an in-range row not yet reverted and still "en contacto" is reverted
   * when it carries the tag of the hinted (or else the known) owner; with neither it is reverted
   * and the owner in its tag, if any, adopted.
   */
  function ReleaseAt(u: Undo, idx: int, hint: string): Undo {
    if Reverts(u, idx, hint) then
      var estado := EstadoOf(u.rows[idx]);
      Undo(u.rows[idx := Released(Pad6(u.rows[idx]))], Adopted(estado, Current(u, hint), u.owner),
           u.processed + {idx}, true)
    else u
  }

  /** The owner a release checks against: the hint, else the known owner. */
  function Current(u: Undo, hint: string): string {
    if hint != "" then hint else u.owner
  }

  /** Whether `_release_at_index` reverts idx. */
  predicate Reverts(u: Undo, idx: int, hint: string) {
    && idx !in u.processed && 0 <= idx < |u.rows|
    && EnContacto(EstadoOf(u.rows[idx]))
    && OwnerAccepts(EstadoOf(u.rows[idx]), Current(u, hint))
  }

  /** The index pass, hinting each index with the owner known at that point. */
  function ReleaseByIndex(u: Undo, indices: seq<int>): Undo
    decreases |indices|
  {
    if indices == [] then u
    else
      var v := ReleaseByIndex(u, indices[..|indices| - 1]);
      ReleaseAt(v, indices[|indices| - 1], v.owner)
  }

  /** The owner hint of a cached row: the known owner, else the owner in the cached row's own tag. */
  function CachedHint(u: Undo, cached: Row): string {
    if u.owner != "" then u.owner
    else
      var e := EstadoOf(cached);
      if StartsWith(e, EN_CONTACTO_TAG) then TagOwner(e) else ""
  }

  /** One entry of the key pass: re-locate by key, skip an index already reverted, pad in place and release. */
  function ReleaseByKey(u: Undo, cached: Row): Undo {
    var idx := FirstKeyHit(u.rows, cached);
    if idx < 0 || idx in u.processed then u
    else ReleaseAt(u.(rows := u.rows[idx := Pad6(u.rows[idx])]), idx, CachedHint(u, cached))
  }

  function ReleaseAllByKey(u: Undo, cached: seq<Row>): Undo
    decreases |cached|
  {
    if cached == [] then u
    else ReleaseByKey(ReleaseAllByKey(u, cached[..|cached| - 1]), cached[|cached| - 1])
  }

  /** The release of a non-empty session over the store body: the index pass, then the key pass. */
  function Release(rows: seq<Row>, reserved: seq<Row>, indices: seq<int>, owner: string): Undo {
    ReleaseAllByKey(ReleaseByIndex(Undo(rows, owner, {}, false), indices), reserved)
  }

  /**
   * What the release keeps true over a padded store: exactly the reverted indices differ from
   * the original rows, each of them was "en contacto" (for the owner, when one was known) and is
   * now its `Released` form; a known owner stays; `changed` says whether any index was reverted.
   */
  predicate UndoSound(rows0: seq<Row>, owner0: string, u: Undo) {
    && Padded(rows0)
    && |u.rows| == |rows0| && Padded(u.rows)
    && (forall i :: i in u.processed ==> 0 <= i < |rows0|)
    && (forall i :: 0 <= i < |rows0| && i !in u.processed ==> u.rows[i] == rows0[i])
    && (forall i :: 0 <= i < |rows0| && i in u.processed ==>
          u.rows[i] == Released(rows0[i]) && EnContacto(EstadoOf(rows0[i]))
          && (owner0 != "" ==> TaggedFor(EstadoOf(rows0[i]), owner0)))
    && (u.changed <==> exists i :: i in u.processed)
    && (owner0 != "" ==> u.owner == owner0)
  }

  lemma ReleaseAtSound(rows0: seq<Row>, owner0: string, u: Undo, idx: int, hint: string)
    requires UndoSound(rows0, owner0, u)
    requires owner0 != "" ==> hint == owner0
    ensures UndoSound(rows0, owner0, ReleaseAt(u, idx, hint))
  {
    if Reverts(u, idx, hint) {
      var v := ReleaseAt(u, idx, hint);
      assert u.rows[idx] == rows0[idx];
      PadTwice(rows0[idx]);
      assert v.rows[idx] == Released(rows0[idx]);
      assert v.processed == u.processed + {idx};
      assert Padded(v.rows);
      forall i | 0 <= i < |rows0| && i !in v.processed
        ensures v.rows[i] == rows0[i]
      {
      }
      forall i | 0 <= i < |rows0| && i in v.processed
        ensures v.rows[i] == Released(rows0[i]) && EnContacto(EstadoOf(rows0[i]))
        ensures owner0 != "" ==> TaggedFor(EstadoOf(rows0[i]), owner0)
      {
      }
      assert idx in v.processed;
    }
  }

  lemma {:induction false} ReleaseByIndexSound(rows0: seq<Row>, owner0: string, u: Undo, indices: seq<int>)
    requires Padded(rows0) && UndoSound(rows0, owner0, u)
    ensures UndoSound(rows0, owner0, ReleaseByIndex(u, indices))
  {
    if indices != [] {
      ReleaseByIndexSound(rows0, owner0, u, indices[..|indices| - 1]);
      var v := ReleaseByIndex(u, indices[..|indices| - 1]);
      ReleaseAtSound(rows0, owner0, v, indices[|indices| - 1], v.owner);
    }
  }

  lemma ReleaseByKeySound(rows0: seq<Row>, owner0: string, u: Undo, cached: Row)
    requires Padded(rows0) && UndoSound(rows0, owner0, u)
    ensures UndoSound(rows0, owner0, ReleaseByKey(u, cached))
  {
    var idx := FirstKeyHit(u.rows, cached);
    if idx >= 0 && idx !in u.processed {
      PadTwice(rows0[idx]);
      var u1 := u.(rows := u.rows[idx := Pad6(u.rows[idx])]);
      assert u1.rows == u.rows;
      ReleaseAtSound(rows0, owner0, u1, idx, CachedHint(u, cached));
    }
  }

  lemma {:induction false} ReleaseAllByKeySound(rows0: seq<Row>, owner0: string, u: Undo, cached: seq<Row>)
    requires Padded(rows0) && UndoSound(rows0, owner0, u)
    ensures UndoSound(rows0, owner0, ReleaseAllByKey(u, cached))
  {
    if cached != [] {
      ReleaseAllByKeySound(rows0, owner0, u, cached[..|cached| - 1]);
      ReleaseByKeySound(rows0, owner0, ReleaseAllByKey(u, cached[..|cached| - 1]), cached[|cached| - 1]);
    }
  }

  /** "Pendiente" is not an "en contacto" status. */
  lemma PendienteNotEnContacto()
    ensures Trim(PENDIENTE) == PENDIENTE && !EnContacto(PENDIENTE)
  {
    assert Stripped(PENDIENTE);
    assert Norm(PENDIENTE)[0] == 'p';
  }

  /** A row that is "en contacto" is not "Pendiente", so reverting it is a change. */
  lemma ReleasedDiffers(row: Row)
    requires |row| == NCOLS && EnContacto(EstadoOf(row))
    ensures Released(row) != row
  {
    PendienteNotEnContacto();
    assert Pad6(row) == row;
  }

  /** A sound release has changed something exactly when some row differs. */
  lemma UndoChanged(rows0: seq<Row>, owner0: string, u: Undo)
    requires UndoSound(rows0, owner0, u)
    ensures u.changed <==> u.rows != rows0
  {
    if u.changed {
      var i :| i in u.processed;
      ReleasedDiffers(rows0[i]);
      assert u.rows[i] != rows0[i];
    } else {
      assert forall i :: 0 <= i < |rows0| ==> i !in u.processed;
      assert u.rows == rows0;
    }
  }

  /**
   * The release over a padded store: each row either is untouched or was "en contacto" (tagged
   * for the owner, when one was known) and is now "Pendiente" with an empty note; so rows in
   * any other status, such as "Aceptado", are never touched. `changed`, which decides the
   * write, holds exactly when some row differs.
   */
  lemma ReleaseSound(rows: seq<Row>, reserved: seq<Row>, indices: seq<int>, owner: string)
    requires Padded(rows)
    ensures var u := Release(rows, reserved, indices, owner);
      && |u.rows| == |rows| && Padded(u.rows)
      && (forall i :: 0 <= i < |rows| ==>
            u.rows[i] == rows[i]
            || (EnContacto(EstadoOf(rows[i])) && (owner != "" ==> TaggedFor(EstadoOf(rows[i]), owner))
                && u.rows[i] == Released(rows[i])))
      && (u.changed <==> u.rows != rows)
  {
    var u0 := Undo(rows, owner, {}, false);
    assert UndoSound(rows, owner, u0);
    ReleaseByIndexSound(rows, owner, u0, indices);
    ReleaseAllByKeySound(rows, owner, ReleaseByIndex(u0, indices), reserved);
    UndoChanged(rows, owner, Release(rows, reserved, indices, owner));
  }

  /** The qualifying positions among idxs, as a set. */
  function QualifyingSet(rows: seq<Row>, owner: string, idxs: seq<int>): set<int> {
    set i | i in idxs && Qualifies(rows, owner, i)
  }

  lemma QualifyingSetInit(rows: seq<Row>, owner: string, idxs: seq<int>)
    requires idxs != []
    ensures var last := idxs[|idxs| - 1];
      QualifyingSet(rows, owner, idxs)
      == QualifyingSet(rows, owner, idxs[..|idxs| - 1]) + (if Qualifies(rows, owner, last) then {last} else {})
  {
    assert idxs == idxs[..|idxs| - 1] + [idxs[|idxs| - 1]];
  }

  /** With a known owner, one release reverts idx exactly when it qualifies against the original rows. */
  lemma ReleaseAtExact(rows0: seq<Row>, owner: string, u: Undo, idx: int)
    requires owner != "" && UndoSound(rows0, owner, u)
    ensures ReleaseAt(u, idx, owner).processed == u.processed + (if Qualifies(rows0, owner, idx) then {idx} else {})
  {
    if idx in u.processed {
      assert Qualifies(rows0, owner, idx);
    }
  }

  lemma {:induction false} ReleaseByIndexExact(rows0: seq<Row>, owner: string, u: Undo, indices: seq<int>)
    requires owner != "" && UndoSound(rows0, owner, u)
    ensures ReleaseByIndex(u, indices).processed == u.processed + QualifyingSet(rows0, owner, indices)
  {
    if indices != [] {
      var init := indices[..|indices| - 1];
      ReleaseByIndexExact(rows0, owner, u, init);
      ReleaseByIndexSound(rows0, owner, u, init);
      ReleaseAtAppends(rows0, owner, u, ReleaseByIndex(u, init), indices);
    }
  }

  /** The inductive step of `ReleaseByIndexExact`: one more index adds itself when it qualifies. */
  lemma ReleaseAtAppends(rows0: seq<Row>, owner: string, u: Undo, v: Undo, indices: seq<int>)
    requires owner != "" && UndoSound(rows0, owner, v) && indices != []
    requires v.processed == u.processed + QualifyingSet(rows0, owner, indices[..|indices| - 1])
    ensures ReleaseAt(v, indices[|indices| - 1], v.owner).processed == u.processed + QualifyingSet(rows0, owner, indices)
  {
    ReleaseAtExact(rows0, owner, v, indices[|indices| - 1]);
    QualifyingSetInit(rows0, owner, indices);
  }

  /** A reverted row keeps its phone and DNI, so it hits the same keys. */
  lemma ReleasedKeepsKeys(row: Row, tel: string, dni: string)
    requires |row| == NCOLS
    ensures KeyHit(Released(row), tel, dni) <==> KeyHit(row, tel, dni)
  {
    assert Pad6(row) == row && Pad6(Released(row)) == Released(row);
  }

  /** Reverting rows keeps their keys, so a key lookup finds the same position before and after a release. */
  lemma ReleasedKeyHitSame(rows0: seq<Row>, owner: string, u: Undo, cached: Row)
    requires UndoSound(rows0, owner, u)
    ensures FirstKeyHit(u.rows, cached) == FirstKeyHit(rows0, cached)
  {
    forall i | 0 <= i < |rows0|
      ensures KeyHit(u.rows[i], KeyTel(cached), KeyDni(cached)) <==> KeyHit(rows0[i], KeyTel(cached), KeyDni(cached))
    {
      if i in u.processed {
        ReleasedKeepsKeys(rows0[i], KeyTel(cached), KeyDni(cached));
      }
    }
    FirstKeyHitSame(u.rows, rows0, cached);
  }

  /** With a known owner, one key entry reverts the cached row's key position exactly when it qualifies. */
  lemma ReleaseByKeyExact(rows0: seq<Row>, owner: string, u: Undo, cached: Row)
    requires owner != "" && UndoSound(rows0, owner, u)
    ensures var at := FirstKeyHit(rows0, cached);
      ReleaseByKey(u, cached).processed == u.processed + (if Qualifies(rows0, owner, at) then {at} else {})
  {
    ReleasedKeyHitSame(rows0, owner, u, cached);
    var idx := FirstKeyHit(u.rows, cached);
    if idx < 0 || idx in u.processed {
      assert idx >= 0 ==> Qualifies(rows0, owner, idx);
    } else {
      ReleaseByKeyFresh(rows0, owner, u, cached, idx);
    }
  }

  /** A key position not yet reverted: the entry is the release of that position. */
  lemma ReleaseByKeyFresh(rows0: seq<Row>, owner: string, u: Undo, cached: Row, idx: int)
    requires owner != "" && UndoSound(rows0, owner, u)
    requires idx == FirstKeyHit(u.rows, cached) && idx >= 0 && idx !in u.processed
    ensures ReleaseByKey(u, cached).processed == u.processed + (if Qualifies(rows0, owner, idx) then {idx} else {})
  {
    assert u.rows[idx := Pad6(u.rows[idx])] == u.rows;
    ReleaseAtExact(rows0, owner, u, idx);
  }


  lemma {:induction false} ReleaseAllByKeyExact(rows0: seq<Row>, owner: string, u: Undo, cached: seq<Row>)
    requires owner != "" && UndoSound(rows0, owner, u)
    ensures ReleaseAllByKey(u, cached).processed == u.processed + QualifyingSet(rows0, owner, KeyHits(rows0, cached))
  {
    if cached != [] {
      var init := cached[..|cached| - 1];
      ReleaseAllByKeyExact(rows0, owner, u, init);
      ReleaseAllByKeySound(rows0, owner, u, init);
      ReleaseByKeyAppends(rows0, owner, u, ReleaseAllByKey(u, init), cached);
    }
  }

  /** The inductive step of `ReleaseAllByKeyExact`: one more cached row adds its qualifying key position. */
  lemma ReleaseByKeyAppends(rows0: seq<Row>, owner: string, u: Undo, v: Undo, cached: seq<Row>)
    requires owner != "" && UndoSound(rows0, owner, v) && cached != []
    requires v.processed == u.processed + QualifyingSet(rows0, owner, KeyHits(rows0, cached[..|cached| - 1]))
    ensures ReleaseByKey(v, cached[|cached| - 1]).processed == u.processed + QualifyingSet(rows0, owner, KeyHits(rows0, cached))
  {
    ReleaseByKeyExact(rows0, owner, v, cached[|cached| - 1]);
    KeyHitsInit(rows0, cached);
    QualifyingSetSnoc(rows0, owner, KeyHits(rows0, cached[..|cached| - 1]), FirstKeyHit(rows0, cached[|cached| - 1]));
  }

  lemma QualifyingSetSnoc(rows: seq<Row>, owner: string, idxs: seq<int>, x: int)
    ensures QualifyingSet(rows, owner, idxs + [x])
      == QualifyingSet(rows, owner, idxs) + (if Qualifies(rows, owner, x) then {x} else {})
  {
    assert forall i :: i in idxs + [x] <==> i in idxs || i == x;
  }

  /**
   * With a known owner, the release over a padded store is exact: a row is reverted precisely
   * when it is still "en contacto" for that owner and is remembered by index or found by the key
   * of a cached row; every other row is left as it was.
   */
  lemma ReleaseExact(rows: seq<Row>, reserved: seq<Row>, indices: seq<int>, owner: string)
    requires Padded(rows) && owner != ""
    ensures var u := Release(rows, reserved, indices, owner);
      && |u.rows| == |rows|
      && forall i :: 0 <= i < |rows| ==>
        u.rows[i] == if Qualifies(rows, owner, i) && (i in indices || i in KeyHits(rows, reserved))
                     then Released(rows[i]) else rows[i]
  {
    var u0 := Undo(rows, owner, {}, false);
    assert UndoSound(rows, owner, u0);
    ReleaseByIndexExact(rows, owner, u0, indices);
    ReleaseByIndexSound(rows, owner, u0, indices);
    var byIndex := ReleaseByIndex(u0, indices);
    ReleaseAllByKeyExact(rows, owner, byIndex, reserved);
    ReleaseAllByKeySound(rows, owner, byIndex, reserved);
  }

  /** `_release_at_index`, on the working state and the session's owner. */
  method ReleaseStep(s: Session, u: Undo, idx: int, hint: string) returns (v: Undo)
    modifies s`reservedOwner
    ensures v == ReleaseAt(u, idx, hint)
    ensures s.reservedOwner == old(s.reservedOwner) || s.reservedOwner == v.owner
  {
    v := u;
    if idx in u.processed || !(0 <= idx < |u.rows|) {
      return;
    }
    var padded := Pad6(u.rows[idx]);
    var estadoActual := EstadoOf(u.rows[idx]);
    if !EnContacto(estadoActual) {
      return;
    }
    var currentOwner := if hint != "" then hint else u.owner;
    var owner := u.owner;
    if currentOwner != "" {
      if !StartsWith(estadoActual, EN_CONTACTO_TAG + currentOwner) {
        return;
      }
    } else if StartsWith(estadoActual, EN_CONTACTO_TAG) {
      currentOwner := TagOwner(estadoActual);
      owner := currentOwner;
      s.reservedOwner := currentOwner;
    }
    padded := padded[ESTADO := PENDIENTE][OBSERVACION := ""];
    v := Undo(u.rows[idx := padded], owner, u.processed + {idx}, true);
  }

  /** The raw table `release_reservation` leaves behind: rewritten only when the release changed a row. */
  function ReleasedTable(table: seq<Row>, reserved: seq<Row>, indices: seq<int>, owner: string): seq<Row> {
    if reserved == [] && indices == [] then table
    else
      var u := Release(ReadListaAny(table), reserved, indices, owner);
      if u.changed then [CSV_HEADERS] + u.rows else table
  }

  /** How many times `release_reservation` writes the store: once when the release changed a row, else never. */
  function ReleaseWrites(table: seq<Row>, reserved: seq<Row>, indices: seq<int>, owner: string): nat {
    if reserved == [] && indices == [] then 0
    else if Release(ReadListaAny(table), reserved, indices, owner).changed then 1 else 0
  }

  /** The loop over the reserved indices: each one released in turn. */
  method ReleaseIndices(s: Session, u0: Undo, indices: seq<int>) returns (u: Undo)
    modifies s`reservedOwner
    ensures u == ReleaseByIndex(u0, indices)
  {
    u := u0;
    for i := 0 to |indices|
      invariant u == ReleaseByIndex(u0, indices[..i])
    {
      assert indices[..i + 1][..i] == indices[..i];
      u := ReleaseStep(s, u, indices[i], u.owner);
    }
    assert indices[..|indices|] == indices;
  }

  /** The loop over the cached rows: each one looked up by its keys and released where it is now. */
  method ReleaseKeys(s: Session, byIndex: Undo, reserved: seq<Row>) returns (u: Undo)
    modifies s`reservedOwner
    ensures u == ReleaseAllByKey(byIndex, reserved)
  {
    u := byIndex;
    for i := 0 to |reserved|
      invariant u == ReleaseAllByKey(byIndex, reserved[..i])
    {
      assert reserved[..i + 1][..i] == reserved[..i];
      var cached := reserved[i];
      var idx, current := FindRowByKeys(u.rows, cached);
      if idx < 0 || current.None? || idx in u.processed {
        continue;
      }
      var hint := CachedHint(u, cached);
      u := u.(rows := u.rows[idx := current.value]);
      u := ReleaseStep(s, u, idx, hint);
    }
    assert reserved[..|reserved|] == reserved;
  }

  /**
   * `release_reservation`. A session holding no claim only loses its owner and indices. Otherwise
   * the store body is read, the release run, and the store rewritten only when a row changed. The
   * session always ends with no claimed rows, indices or owner.
   */
  method ReleaseReservation(ws: Worksheet, s: Session)
    modifies ws, s`reservedRows, s`reservedIndices, s`reservedOwner
    ensures s.reservedRows == [] && s.reservedIndices == [] && s.reservedOwner == ""
    ensures old(s.reservedRows) == [] && old(s.reservedIndices) == [] ==>
      ws.table == old(ws.table) && ws.writes == old(ws.writes)
    ensures !(old(s.reservedRows) == [] && old(s.reservedIndices) == []) ==>
      var u := Release(ReadListaAny(old(ws.table)), old(s.reservedRows), old(s.reservedIndices), old(s.reservedOwner));
      if u.changed then ws.table == [CSV_HEADERS] + u.rows && ws.writes == old(ws.writes) + 1
      else ws.table == old(ws.table) && ws.writes == old(ws.writes)
    ensures ws.table == ReleasedTable(old(ws.table), old(s.reservedRows), old(s.reservedIndices), old(s.reservedOwner))
    ensures ws.writes == old(ws.writes) + ReleaseWrites(old(ws.table), old(s.reservedRows), old(s.reservedIndices), old(s.reservedOwner))
  {
    var reserved := s.reservedRows;
    var indices := s.reservedIndices;
    if reserved == [] && indices == [] {
      s.reservedOwner := "";
      s.reservedIndices := [];
      return;
    }
    var allRows := ReadListaAny(ws.table);
    var u0 := Undo(allRows, s.reservedOwner, {}, false);
    var byIndex := ReleaseIndices(s, u0, indices);
    var u := ReleaseKeys(s, byIndex, reserved);
    if u.changed {
      ReleaseSound(allRows, reserved, indices, old(s.reservedOwner));
      SetListaAny(ws, u.rows);
    }
    s.reservedRows := [];
    s.reservedOwner := "";
    s.reservedIndices := [];
  }
}
