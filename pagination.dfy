/**
 * Display helpers (bot/utils/pagination.py): the cleanup of corrupted "En contacto" statuses,
 * the fixed-size chunking behind every paged list, and the one-line rendering of a row.
 */
module Pagination {
  import opened Text
  import opened Config
  import opened Lista

  /** The dashes the cleanup accepts after "En contacto": hyphen, en dash, em dash. */
  predicate IsDash(c: char) {
    c == '-' || c == '\U{2013}' || c == '\U{2014}'
  }

  /** A regular-expression word character (`\w`), over ASCII and Latin-1. */
  predicate IsWordChar(c: char) {
    IsDigit(c) || ('a' <= c <= 'z') || ('A' <= c <= 'Z') || c == '_'
    || c == '\U{aa}' || c == '\U{b2}' || c == '\U{b3}' || c == '\U{b5}' || c == '\U{b9}' || c == '\U{ba}'
    || ('\U{bc}' <= c <= '\U{be}') || ('\U{c0}' <= c <= '\U{ff}' && c != '\U{d7}' && c != '\U{f7}')
  }

  /** The first position at or after i that is not whitespace (`\s*`). */
  function SkipSpaces(s: string, i: nat): (j: nat)
    requires i <= |s|
    ensures i <= j <= |s| && (j < |s| ==> !IsSpace(s[j]))
    ensures forall k :: i <= k < j ==> IsSpace(s[k])
    decreases |s| - i
  {
    if i < |s| && IsSpace(s[i]) then SkipSpaces(s, i + 1) else i
  }

  /** The end of the run of digits starting at i. */
  function DigitRunEnd(s: string, i: nat): (j: nat)
    requires i <= |s|
    ensures i <= j <= |s| && (j < |s| ==> !IsDigit(s[j]))
    ensures forall k :: i <= k < j ==> IsDigit(s[k])
    decreases |s| - i
  {
    if i < |s| && IsDigit(s[i]) then DigitRunEnd(s, i + 1) else i
  }

  /** `\d{5,}\b` at position a: the greedy run of at least five digits, ending at a word boundary. */
  predicate NumberAt(s: string, a: nat)
    requires a <= |s|
  {
    var b := DigitRunEnd(s, a);
    b - a >= 5 && (b == |s| || !IsWordChar(s[b]))
  }

  /**
   * `^En contacto\s*[-–—]\s*\(?(\d{5,})\b`: the position where the digits start, when s has this
   * shape; `paren` says whether the opening parenthesis is required (the first pattern) or
   * absent (the second).
   */
  function DashedNumberStart(s: string, paren: bool): (a: int)
    ensures a >= 0 ==> a <= |s| && StartsWith(s, EN_CONTACTO) && NumberAt(s, a)
  {
    if !StartsWith(s, EN_CONTACTO) then -1
    else
      var i := SkipSpaces(s, |EN_CONTACTO|);
      if i == |s| || !IsDash(s[i]) then -1
      else
        var j := SkipSpaces(s, i + 1);
        if paren then
          if j < |s| && s[j] == '(' && NumberAt(s, j + 1) then j + 1 else -1
        else
          if NumberAt(s, j) then j else -1
  }

  /** `\b\d{5,}\b` at position b: a number of five or more digits with a word boundary on each side. */
  predicate NumberFrom(s: string, b: nat)
    requires b <= |s|
  {
    NumberAt(s, b) && (b == 0 || !IsWordChar(s[b - 1]))
  }

  /**
   * `re.search(r"\b(\d{5,})\b", s)` from position i: the leftmost standalone number of five or
   * more digits, or -1 when there is none.
   */
  function SearchNumber(s: string, i: nat): (a: int)
    requires i <= |s|
    ensures a >= 0 ==> i <= a < |s| && NumberFrom(s, a)
    ensures a >= 0 ==> forall b :: i <= b < a ==> !NumberFrom(s, b)
    ensures a < 0 ==> forall b :: i <= b <= |s| ==> !NumberFrom(s, b)
    decreases |s| - i
  {
    if i == |s| then -1
    else if IsDigit(s[i]) && (i == 0 || !IsWordChar(s[i - 1])) then
      var b := DigitRunEnd(s, i);
      if NumberAt(s, i) then i else SearchNumber(s, b)
    else SearchNumber(s, i + 1)
  }

  /** "En contacto - " followed by a number of at least five digits. */
  predicate NumericTag(r: string) {
    StartsWith(r, EN_CONTACTO_TAG) && |r| >= |EN_CONTACTO_TAG| + 5 && IsDigits(r[|EN_CONTACTO_TAG|..])
  }

  /** The tag for the number starting at a. */
  function TagFor(s: string, a: nat): (r: string)
    requires a <= |s| && NumberAt(s, a)
    ensures NumericTag(r)
  {
    var d := s[a..DigitRunEnd(s, a)];
    var r := EN_CONTACTO_TAG + d;
    assert r[..|EN_CONTACTO_TAG|] == EN_CONTACTO_TAG && r[|EN_CONTACTO_TAG|..] == d;
    r
  }

  /**
   * `_clean_estado_for_display`: an empty status is returned as is; "En contacto" followed by a
   * dash and a number of five or more digits (in parentheses or not) collapses to
   * "En contacto - <number>"; a status carrying "Update(" collapses to its first such number, or to
   * plain "En contacto"; anything else is returned stripped.
   */
  function CleanEstadoForDisplay(est: string): (r: string)
    ensures est == [] ==> r == []
    ensures est != [] && !StartsWith(Trim(est), EN_CONTACTO) ==> r == Trim(est)
    ensures r == Trim(est) || r == EN_CONTACTO || NumericTag(r)
    ensures (est != [] && DashedNumberStart(Trim(est), true) < 0 && DashedNumberStart(Trim(est), false) < 0
             && !(StartsWith(Trim(est), EN_CONTACTO) && Contains(Trim(est), "Update("))) ==> r == Trim(est)
  {
    if est == [] then est
    else
      var s := Trim(est);
      var a1 := DashedNumberStart(s, true);
      if a1 >= 0 then TagFor(s, a1)
      else
        var a2 := DashedNumberStart(s, false);
        if a2 >= 0 then TagFor(s, a2)
        else if StartsWith(s, EN_CONTACTO) && Contains(s, "Update(") then
          var a3 := SearchNumber(s, 0);
          if a3 >= 0 then TagFor(s, a3) else EN_CONTACTO
        else s
  }

  /**
   * A status starting "En contacto" and carrying "Update(" that matches neither dashed pattern
   * shows its leftmost standalone number as the tag, or plain "En contacto" when it has none.
   */
  lemma CleanUpdate(est: string)
    requires est != []
    requires DashedNumberStart(Trim(est), true) < 0 && DashedNumberStart(Trim(est), false) < 0
    requires StartsWith(Trim(est), EN_CONTACTO) && Contains(Trim(est), "Update(")
    ensures var s := Trim(est);
      && (CleanEstadoForDisplay(est) == EN_CONTACTO <==> forall b :: 0 <= b <= |s| ==> !NumberFrom(s, b))
      && (forall a :: 0 <= a <= |s| && NumberFrom(s, a) && (forall b :: 0 <= b < a ==> !NumberFrom(s, b)) ==>
            CleanEstadoForDisplay(est) == TagFor(s, a))
  {
    var s := Trim(est);
    var a3 := SearchNumber(s, 0);
    if a3 >= 0 {
      assert |TagFor(s, a3)| > |EN_CONTACTO|;
    }
  }

  /**
   * The usual tag, "En contacto - " followed by an operator's name that does not start with a
   * digit, a blank or "(", is shown as it is.
   */
  lemma CleanKeepsNamedTag(who: string)
    requires who != [] && !IsDigit(who[0]) && !IsSpace(who[0]) && who[0] != '(' && !IsSpace(who[|who| - 1])
    requires !Contains(EN_CONTACTO_TAG + who, "Update(")
    ensures CleanEstadoForDisplay(EN_CONTACTO_TAG + who) == EN_CONTACTO_TAG + who
  {
    NamedTagStripped(who);
    NamedTagNotDashed(who);
  }

  /** A named tag neither starts nor ends with whitespace. */
  lemma NamedTagStripped(who: string)
    requires who != [] && !IsSpace(who[|who| - 1])
    ensures Trim(EN_CONTACTO_TAG + who) == EN_CONTACTO_TAG + who
  {
    var s := EN_CONTACTO_TAG + who;
    assert s[0] == 'E' && s[|s| - 1] == who[|who| - 1];
  }

  /** After "En contacto - " a name starting with neither a digit, a blank nor "(" matches no dashed pattern. */
  lemma NamedTagNotDashed(who: string)
    requires who != [] && !IsDigit(who[0]) && !IsSpace(who[0]) && who[0] != '('
    ensures DashedNumberStart(EN_CONTACTO_TAG + who, true) < 0 && DashedNumberStart(EN_CONTACTO_TAG + who, false) < 0
  {
    var s := EN_CONTACTO_TAG + who;
    assert s[..|EN_CONTACTO|] == EN_CONTACTO;
    assert s[11] == ' ' && s[12] == '-' && s[13] == ' ' && s[14] == who[0];
    assert SkipSpaces(s, 12) == 12;
    assert SkipSpaces(s, 11) == 12;
    assert SkipSpaces(s, 14) == 14;
    assert SkipSpaces(s, 13) == 14;
    assert DigitRunEnd(s, 14) == 14;
  }

  /** The clean form of a tag for a numeric owner is the tag itself. */
  lemma CleanKeepsNumericTag(d: string)
    requires IsDigits(d) && |d| >= 5
    ensures CleanEstadoForDisplay(EN_CONTACTO_TAG + d) == EN_CONTACTO_TAG + d
  {
    var s := EN_CONTACTO_TAG + d;
    TagIsDashed(d);
    DashedStart(" ", '-', " ", false, d, "");
    TagStripped(d);
    assert s[14..] == d;
  }

  /** A tag is the unbracketed dashed form with one blank on each side of a hyphen. */
  lemma TagIsDashed(d: string)
    ensures EN_CONTACTO_TAG + d == DashedForm(" ", '-', " ", false, d, "")
  {
  }

  /** A tag neither starts nor ends with whitespace. */
  lemma TagStripped(d: string)
    requires IsDigits(d)
    ensures Stripped(EN_CONTACTO_TAG + d) && Trim(EN_CONTACTO_TAG + d) == EN_CONTACTO_TAG + d
  {
    var s := EN_CONTACTO_TAG + d;
    assert s[|s| - 1] == d[|d| - 1];
  }

  /** A run of digits that reaches the end of the string ends there. */
  lemma {:induction false} DigitRunToEnd(s: string, i: nat)
    requires i <= |s| && forall k :: i <= k < |s| ==> IsDigit(s[k])
    ensures DigitRunEnd(s, i) == |s|
    decreases |s| - i
  {
    if i < |s| {
      DigitRunToEnd(s, i + 1);
    }
  }

  /** "En contacto", blanks, a dash, blanks, an optional "(", the digits d, then rest. */
  function DashedForm(pre: string, dash: char, post: string, paren: bool, d: string, rest: string): string {
    EN_CONTACTO + pre + [dash] + post + (if paren then "(" else "") + d + rest
  }

  function DashedAt(pre: string, post: string, paren: bool): nat {
    |EN_CONTACTO| + |pre| + 1 + |post| + (if paren then 1 else 0)
  }

  /**
   * The two dashed patterns, position by position: "En contacto", blanks up to the dash at i,
   * blanks up to j, the "(" at j when paren, and the digits filling [a, e) followed by a
   * non-word character or the end.
   */
  lemma DashedStartAt(s: string, i: nat, j: nat, a: nat, e: nat, paren: bool)
    requires StartsWith(s, EN_CONTACTO)
    requires |EN_CONTACTO| <= i < j <= a < e <= |s|
    requires forall k :: |EN_CONTACTO| <= k < i ==> IsSpace(s[k])
    requires IsDash(s[i])
    requires forall k :: i + 1 <= k < j ==> IsSpace(s[k])
    requires a == if paren then j + 1 else j
    requires paren ==> s[j] == '('
    requires e - a >= 5 && forall k :: a <= k < e ==> IsDigit(s[k])
    requires e == |s| || !IsWordChar(s[e])
    ensures DigitRunEnd(s, a) == e
    ensures DashedNumberStart(s, paren) == a
  {
    assert IsDigit(s[a]);
    DashScan(s, i, j);
    assert e < |s| ==> !IsDigit(s[e]);
    RunOver(s, a, e);
    DashedMatch(s, i, j, a, paren);
  }

  /** The dashed pattern matches once the scans stop at the dash and at j and a number starts at a. */
  lemma DashedMatch(s: string, i: nat, j: nat, a: nat, paren: bool)
    requires StartsWith(s, EN_CONTACTO) && |EN_CONTACTO| <= i < j <= a <= |s|
    requires SkipSpaces(s, |EN_CONTACTO|) == i && IsDash(s[i]) && SkipSpaces(s, i + 1) == j
    requires a == if paren then j + 1 else j
    requires paren ==> s[j] == '('
    requires NumberAt(s, a)
    ensures DashedNumberStart(s, paren) == a
  {
  }

  /** Skipping the blanks around the dash stops at the dash, then at j. */
  lemma DashScan(s: string, i: nat, j: nat)
    requires |EN_CONTACTO| <= i < j < |s|
    requires forall k :: |EN_CONTACTO| <= k < i ==> IsSpace(s[k])
    requires IsDash(s[i])
    requires forall k :: i + 1 <= k < j ==> IsSpace(s[k])
    requires s[j] == '(' || IsDigit(s[j])
    ensures SkipSpaces(s, |EN_CONTACTO|) == i && SkipSpaces(s, i + 1) == j
  {
    assert !IsSpace(s[i]);
    SkipOver(s, |EN_CONTACTO|, i);
    assert !IsSpace(s[j]);
    SkipOver(s, i + 1, j);
  }

  /** Without a "(" after the dash, the bracketed pattern does not match. */
  lemma DashedNoParen(s: string, i: nat, j: nat)
    requires StartsWith(s, EN_CONTACTO)
    requires |EN_CONTACTO| <= i < j < |s|
    requires forall k :: |EN_CONTACTO| <= k < i ==> IsSpace(s[k])
    requires IsDash(s[i])
    requires forall k :: i + 1 <= k < j ==> IsSpace(s[k])
    requires IsDigit(s[j])
    ensures DashedNumberStart(s, true) == -1
  {
    DashScan(s, i, j);
    assert s[j] != '(';
  }

  /** The layout of a dashed corrupted status, position by position. */
  lemma DashedLayout(pre: string, dash: char, post: string, paren: bool, d: string, rest: string)
    requires forall k :: 0 <= k < |pre| ==> IsSpace(pre[k])
    requires forall k :: 0 <= k < |post| ==> IsSpace(post[k])
    requires IsDash(dash) && IsDigits(d) && |d| >= 5
    requires rest == [] || !IsWordChar(rest[0])
    ensures var s := DashedForm(pre, dash, post, paren, d, rest);
      var i := |EN_CONTACTO| + |pre|;
      var j := i + 1 + |post|;
      var a := DashedAt(pre, post, paren);
      StartsWith(s, EN_CONTACTO) && a + |d| <= |s|
      && (forall k :: |EN_CONTACTO| <= k < i ==> IsSpace(s[k]))
      && IsDash(s[i])
      && (forall k :: i + 1 <= k < j ==> IsSpace(s[k]))
      && (paren ==> s[j] == '(')
      && (forall k :: a <= k < a + |d| ==> IsDigit(s[k]))
      && (a + |d| == |s| || !IsWordChar(s[a + |d|]))
      && s[a..a + |d|] == d
  {
    var open := if paren then "(" else "";
    var head := EN_CONTACTO + pre + [dash] + post + open;
    var s := head + d + rest;
    assert s == DashedForm(pre, dash, post, paren, d, rest);
    assert s[..|EN_CONTACTO|] == EN_CONTACTO by {
      assert s[..|EN_CONTACTO|] == head[..|EN_CONTACTO|];
    }
    var a := |head|;
    assert s[a..a + |d|] == d;
  }

  /** Where the number starts in a dashed corrupted status, found by the first or second pattern. */
  lemma DashedStart(pre: string, dash: char, post: string, paren: bool, d: string, rest: string)
    requires forall k :: 0 <= k < |pre| ==> IsSpace(pre[k])
    requires forall k :: 0 <= k < |post| ==> IsSpace(post[k])
    requires IsDash(dash) && IsDigits(d) && |d| >= 5
    requires rest == [] || !IsWordChar(rest[0])
    ensures var s := DashedForm(pre, dash, post, paren, d, rest);
      var a := DashedAt(pre, post, paren);
      a + |d| <= |s| && DigitRunEnd(s, a) == a + |d| && s[a..a + |d|] == d
      && DashedNumberStart(s, paren) == a && (!paren ==> DashedNumberStart(s, true) == -1)
  {
    DashedLayout(pre, dash, post, paren, d, rest);
    var s := DashedForm(pre, dash, post, paren, d, rest);
    var i := |EN_CONTACTO| + |pre|;
    var j := i + 1 + |post|;
    var a := DashedAt(pre, post, paren);
    DashedStartAt(s, i, j, a, a + |d|, paren);
    if !paren {
      DashedNoParen(s, i, j);
    }
  }

  /**
   * The corrupted forms "En contacto<dash>(DDDDD…" and "En contacto<dash>DDDDD…", with any of the
   * three dashes and blanks around it, collapse to "En contacto - DDDDD".
   */
  lemma CleanCollapsesDashedNumber(pre: string, dash: char, post: string, paren: bool, d: string, rest: string)
    requires forall k :: 0 <= k < |pre| ==> IsSpace(pre[k])
    requires forall k :: 0 <= k < |post| ==> IsSpace(post[k])
    requires IsDash(dash) && IsDigits(d) && |d| >= 5
    requires rest == [] || (!IsWordChar(rest[0]) && !IsSpace(rest[|rest| - 1]))
    ensures CleanEstadoForDisplay(DashedForm(pre, dash, post, paren, d, rest)) == EN_CONTACTO_TAG + d
  {
    var s := DashedForm(pre, dash, post, paren, d, rest);
    assert Stripped(s) by {
      assert s[0] == 'E';
      if rest == [] { assert s[|s| - 1] == d[|d| - 1]; } else { assert s[|s| - 1] == rest[|rest| - 1]; }
    }
    DashedStart(pre, dash, post, paren, d, rest);
    var a := DashedAt(pre, post, paren);
    CleanAtDashed(s, paren, a);
  }

  /** A stripped status matched by one of the dashed patterns cleans to the tag of its number. */
  lemma CleanAtDashed(s: string, paren: bool, a: nat)
    requires s != [] && Stripped(s) && a <= |s|
    requires DashedNumberStart(s, paren) == a
    requires !paren ==> DashedNumberStart(s, true) == -1
    ensures CleanEstadoForDisplay(s) == EN_CONTACTO_TAG + s[a..DigitRunEnd(s, a)]
  {
    assert Trim(s) == s;
  }

  /** SkipSpaces stops exactly after a block of blanks followed by a non-blank. */
  lemma {:induction false} SkipOver(s: string, i: nat, j: nat)
    requires i <= j < |s| && !IsSpace(s[j]) && forall k :: i <= k < j ==> IsSpace(s[k])
    ensures SkipSpaces(s, i) == j
    decreases j - i
  {
    if i < j {
      SkipOver(s, i + 1, j);
    }
  }

  /** DigitRunEnd stops exactly after a block of digits followed by a non-digit or the end. */
  lemma {:induction false} RunOver(s: string, i: nat, j: nat)
    requires i <= j <= |s| && (j < |s| ==> !IsDigit(s[j])) && forall k :: i <= k < j ==> IsDigit(s[k])
    ensures DigitRunEnd(s, i) == j
    decreases j - i
  {
    if i < j {
      RunOver(s, i + 1, j);
    }
  }

  /** `_chunk_rows`: consecutive slices of `size` elements, the last one possibly shorter. */
  function Chunks<T>(s: seq<T>, size: nat): (cs: seq<seq<T>>)
    requires size > 0
    ensures forall k :: 0 <= k < |cs| ==> 0 < |cs[k]| <= size
    ensures forall k :: 0 <= k < |cs| - 1 ==> |cs[k]| == size
    ensures |s| == 0 <==> |cs| == 0
    decreases |s|
  {
    if s == [] then []
    else if |s| <= size then [s]
    else [s[..size]] + Chunks(s[size..], size)
  }

  /** There are ceil(|s| / size) chunks. */
  lemma {:induction false} ChunksCount<T>(s: seq<T>, size: nat)
    requires size > 0
    ensures |Chunks(s, size)| == (|s| + size - 1) / size
    decreases |s|
  {
    if |s| > size {
      ChunksCount(s[size..], size);
      assert (|s| + size - 1) / size == (|s| - size + size - 1) / size + 1 by {
        DivShift(|s| + size - 1, size);
      }
    } else if s != [] {
      assert (|s| + size - 1) / size == 1 by { DivOne(|s| + size - 1, size); }
    }
  }

  lemma MulLe(a: int, b: int, c: int)
    requires a <= b && c > 0
    ensures a * c <= b * c
  {
  }

  /** Integer division has a unique quotient. */
  lemma DivUnique(x: int, size: int, q: int, r: int)
    requires size > 0 && 0 <= r < size && x == q * size + r
    ensures x / size == q
  {
    var q1 := x / size;
    if q1 > q {
      MulLe(q + 1, q1, size);
      assert false;
    } else if q1 < q {
      MulLe(q1 + 1, q, size);
      assert false;
    }
  }

  lemma DivShift(x: nat, size: nat)
    requires size > 0 && x >= size
    ensures x / size == (x - size) / size + 1
  {
    var q := (x - size) / size;
    var r := (x - size) % size;
    assert x == (q + 1) * size + r;
    DivUnique(x, size, q + 1, r);
  }

  lemma DivOne(x: nat, size: nat)
    requires size > 0 && size <= x < 2 * size
    ensures x / size == 1
  {
    DivUnique(x, size, 1, x - size);
  }

  lemma MulSucc(p: nat, size: nat)
    ensures p * size + size == (p + 1) * size
  {
  }

  function Flatten<T>(cs: seq<seq<T>>): seq<T> {
    if cs == [] then [] else cs[0] + Flatten(cs[1..])
  }

  /** Concatenating the chunks gives back the input. */
  lemma {:induction false} ChunksFlatten<T>(s: seq<T>, size: nat)
    requires size > 0
    ensures Flatten(Chunks(s, size)) == s
    decreases |s|
  {
    if s != [] && |s| > size {
      ChunksFlatten(s[size..], size);
      assert s == s[..size] + s[size..];
    } else if s != [] {
      assert Flatten([s]) == s + [];
    }
  }

  /** Element i of chunk p is element p*size + i of the input: the numbering the paged lists show. */
  lemma {:induction false} ChunkElement<T>(s: seq<T>, size: nat, p: nat, i: nat)
    requires size > 0 && p < |Chunks(s, size)| && i < |Chunks(s, size)[p]|
    ensures p * size + i < |s| && Chunks(s, size)[p][i] == s[p * size + i]
    decreases p
  {
    if p > 0 {
      var rest := s[size..];
      assert Chunks(s, size) == [s[..size]] + Chunks(rest, size);
      ChunkElement(rest, size, p - 1, i);
      MulSucc(p - 1, size);
    }
  }

  /**
   * `_format_persona`: "tel: nombre, apellido", then " - <status>" when the cleaned status is not
   * empty, then " (<note>)" when that status is a "Contactar Luego" and the note is not empty.
   */
  function FormatPersona(row: Row): (line: string) {
    PersonaLine(PersonaHead(row), PersonaStatus(row), Pad6(row)[OBSERVACION], PersonaNoted(row))
  }

  /** The line from its parts: the head, " - <status>" for a status, " (<note>)" when the note is shown. */
  function PersonaLine(head: string, est: string, obs: string, noted: bool): string {
    var tail := if est != "" then " - " + est else "";
    var note := if noted then " (" + obs + ")" else "";
    head + tail + note
  }

  /** Assembling the line gives one of its three shapes, whenever a shown note comes with a status. */
  lemma PersonaLineShapes(head: string, est: string, obs: string, noted: bool)
    requires noted ==> est != ""
    ensures est == "" ==> PersonaLine(head, est, obs, noted) == head
    ensures est != "" && !noted ==> PersonaLine(head, est, obs, noted) == head + " - " + est
    ensures noted ==> PersonaLine(head, est, obs, noted) == head + " - " + est + " (" + obs + ")"
  {
    if est == "" {
      assert head + "" + "" == head;
    } else if !noted {
      assert head + (" - " + est) + "" == head + " - " + est;
    }
  }

  /**
   * The three shapes a line takes: the head alone for an empty status, the status after a dash,
   * and the note in brackets only beside a "Contactar Luego" status.
   */
  lemma FormatPersonaCases(row: Row)
    ensures PersonaStatus(row) == "" ==> FormatPersona(row) == PersonaHead(row)
    ensures PersonaStatus(row) != "" && !PersonaNoted(row) ==>
      FormatPersona(row) == PersonaHead(row) + " - " + PersonaStatus(row)
    ensures PersonaNoted(row) ==>
      FormatPersona(row) == PersonaHead(row) + " - " + PersonaStatus(row) + " (" + Pad6(row)[OBSERVACION] + ")"
  {
    var est := PersonaStatus(row);
    assert StartsWith(est, CONTACTAR_LUEGO) ==> |est| >= |CONTACTAR_LUEGO| > 0;
    PersonaLineShapes(PersonaHead(row), est, Pad6(row)[OBSERVACION], PersonaNoted(row));
  }

  /** "tel: nombre, apellido" */
  function PersonaHead(row: Row): string {
    var p := Pad6(row);
    p[TELEFONO] + ": " + p[NOMBRE] + ", " + p[APELLIDO]
  }

  function PersonaStatus(row: Row): string {
    CleanEstadoForDisplay(Pad6(row)[ESTADO])
  }

  /** The note is shown only beside a non-empty "Contactar Luego" status. */
  predicate PersonaNoted(row: Row) {
    StartsWith(PersonaStatus(row), CONTACTAR_LUEGO) && Pad6(row)[OBSERVACION] != ""
  }
}
