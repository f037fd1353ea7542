/**
 * The Python string primitives the bot relies on, written out over `seq<char>`:
 * str.strip, str.lower, the accent-stripping normaliser `_norm`, str.split,
 * str.startswith, `in` on strings, str.isdigit, int() and str() on natural numbers,
 * and the character filters built from str.replace and re.sub.
 */
module Text {

  /** Python's str.isspace(): the characters that str.strip() and str.split() discard. */
  predicate IsSpace(c: char) {
    c == ' ' || ('\t' <= c <= '\r') || ('\U{1c}' <= c <= '\U{1f}') || c == '\U{85}' || c == '\U{a0}'
    || c == '\U{1680}' || ('\U{2000}' <= c <= '\U{200a}') || c == '\U{2028}' || c == '\U{2029}'
    || c == '\U{202f}' || c == '\U{205f}' || c == '\U{3000}'
  }

  predicate NoSpace(s: string) {
    forall i :: 0 <= i < |s| ==> !IsSpace(s[i])
  }

  /** True when s has no whitespace at either end, so that str.strip() leaves it alone. */
  predicate Stripped(s: string) {
    s == [] || (!IsSpace(s[0]) && !IsSpace(s[|s| - 1]))
  }

  /** str.lstrip() */
  function TrimLeft(s: string): (r: string)
    ensures |r| <= |s| && r == s[|s| - |r|..]
    ensures forall i :: 0 <= i < |s| - |r| ==> IsSpace(s[i])
    ensures r != [] ==> !IsSpace(r[0])
  {
    if s != [] && IsSpace(s[0]) then TrimLeft(s[1..]) else s
  }

  /** str.rstrip() */
  function TrimRight(s: string): (r: string)
    ensures |r| <= |s| && r == s[..|r|]
    ensures forall i :: |r| <= i < |s| ==> IsSpace(s[i])
    ensures r != [] ==> !IsSpace(r[|r| - 1])
  {
    if s != [] && IsSpace(s[|s| - 1]) then TrimRight(s[..|s| - 1]) else s
  }

  /** str.strip(): the result has no whitespace at either end, and a string without any is returned as is. */
  function Trim(s: string): (r: string)
    ensures |r| <= |s|
    ensures Stripped(r)
    ensures Stripped(s) ==> r == s
    decreases |s|
  {
    if s == [] then []
    else if IsSpace(s[0]) then Trim(s[1..])
    else if IsSpace(s[|s| - 1]) then Trim(s[..|s| - 1])
    else s
  }

  /** Stripping removes only whitespace: every other character of s is still there. */
  lemma {:induction false} TrimKeepsInner(s: string)
    ensures forall c :: !IsSpace(c) ==> (c in Trim(s) <==> c in s)
    decreases |s|
  {
    if s != [] && IsSpace(s[0]) {
      TrimKeepsInner(s[1..]);
      assert s == [s[0]] + s[1..];
    } else if s != [] && IsSpace(s[|s| - 1]) {
      TrimKeepsInner(s[..|s| - 1]);
      assert s == s[..|s| - 1] + [s[|s| - 1]];
    }
  }

  /** Stripping is stripping the left end, then the right end. */
  lemma {:induction false} TrimLeftRight(s: string)
    ensures Trim(s) == TrimRight(TrimLeft(s))
    decreases |s|
  {
    if s != [] && IsSpace(s[0]) {
      TrimLeftRight(s[1..]);
    } else if s != [] {
      TrimRightOf(s);
    }
  }

  /** On a string that starts with something other than whitespace, stripping is stripping the right end. */
  lemma {:induction false} TrimRightOf(s: string)
    requires s != [] && !IsSpace(s[0])
    ensures Trim(s) == TrimRight(s)
    decreases |s|
  {
    if IsSpace(s[|s| - 1]) {
      TrimRightOf(s[..|s| - 1]);
    }
  }

  /** str.strip() gives "" exactly when every character is whitespace. */
  lemma {:induction false} TrimEmpty(s: string)
    ensures Trim(s) == [] <==> forall i :: 0 <= i < |s| ==> IsSpace(s[i])
    decreases |s|
  {
    if s != [] {
      if IsSpace(s[0]) {
        TrimEmpty(s[1..]);
        if Trim(s) == [] {
          forall i | 0 <= i < |s| ensures IsSpace(s[i]) {
            if i > 0 { assert s[i] == s[1..][i - 1]; }
          }
        }
      } else {
        assert Trim(s) != [] by {
          TrimRightOf(s);
        }
      }
    }
  }

  /** str.startswith(p) */
  predicate StartsWith(s: string, p: string) {
    |p| <= |s| && s[..|p|] == p
  }

  /** `t in s` for strings: t occurs somewhere in s. */
  predicate Contains(s: string, t: string)
    decreases |s|
  {
    StartsWith(s, t) || (s != [] && Contains(s[1..], t))
  }

  /** str.lower() on ASCII and Latin-1 capitals. */
  function LowerChar(c: char): char {
    if 'A' <= c <= 'Z' || ('\U{c0}' <= c <= '\U{de}' && c != '\U{d7}') then (c as int + 32) as char else c
  }

  function Lower(s: string): (r: string)
    ensures |r| == |s| && forall i :: 0 <= i < |s| ==> r[i] == LowerChar(s[i])
  {
    seq(|s|, i requires 0 <= i < |s| => LowerChar(s[i]))
  }

  /** NFKD decomposition followed by dropping the combining marks, for the Latin-1 letters. */
  function FoldAccent(c: char): char {
    if '\U{c0}' <= c <= '\U{c5}' then 'A'
    else if c == '\U{c7}' then 'C'
    else if '\U{c8}' <= c <= '\U{cb}' then 'E'
    else if '\U{cc}' <= c <= '\U{cf}' then 'I'
    else if c == '\U{d1}' then 'N'
    else if '\U{d2}' <= c <= '\U{d6}' then 'O'
    else if '\U{d9}' <= c <= '\U{dc}' then 'U'
    else if c == '\U{dd}' then 'Y'
    else if '\U{e0}' <= c <= '\U{e5}' then 'a'
    else if c == '\U{e7}' then 'c'
    else if '\U{e8}' <= c <= '\U{eb}' then 'e'
    else if '\U{ec}' <= c <= '\U{ef}' then 'i'
    else if c == '\U{f1}' then 'n'
    else if '\U{f2}' <= c <= '\U{f6}' then 'o'
    else if '\U{f9}' <= c <= '\U{fc}' then 'u'
    else if c == '\U{fd}' || c == '\U{ff}' then 'y'
    else c
  }

  function NormChar(c: char): char {
    LowerChar(FoldAccent(c))
  }

  /** `_norm`: strip, drop accents, lower-case. Character by character after the strip. */
  function Norm(s: string): (r: string)
    ensures |r| == |Trim(s)| && forall i :: 0 <= i < |r| ==> r[i] == NormChar(Trim(s)[i])
  {
    var t := Trim(s);
    seq(|t|, i requires 0 <= i < |t| => NormChar(t[i]))
  }

  /** Normalising a string that starts with p gives a string that starts with p normalised. */
  lemma NormStartsWith(s: string, p: string)
    requires Stripped(s) && StartsWith(s, p)
    ensures StartsWith(Norm(s), Norm(p))
  {
    assert Trim(s) == s;
    assert Stripped(p) ==> Trim(p) == p;
    if !Stripped(p) {
      // p ends in whitespace that s continues; its normal form is a prefix of p's normalised prefix
      var tp := Trim(p);
      assert |tp| <= |p|;
      assert p != [] && !IsSpace(s[0]) && p[0] == s[0];
      TrimRightOf(p);
      assert tp == p[..|tp|];
    }
  }

  predicate IsDigit(c: char) {
    '0' <= c <= '9'
  }

  /** str.isdigit() (for ASCII digits): non-empty and every character a digit. */
  predicate IsDigits(s: string) {
    s != [] && forall i :: 0 <= i < |s| ==> IsDigit(s[i])
  }

  function DigitValue(c: char): nat
    requires IsDigit(c)
  {
    c as int - '0' as int
  }

  function DigitChar(d: nat): (c: char)
    requires d < 10
    ensures IsDigit(c) && DigitValue(c) == d
  {
    ('0' as int + d) as char
  }

  /** int(s) for a string of digits. */
  function ParseNat(s: string): nat
    requires forall i :: 0 <= i < |s| ==> IsDigit(s[i])
  {
    if s == [] then 0 else 10 * ParseNat(s[..|s| - 1]) + DigitValue(s[|s| - 1])
  }

  /** str(n) for a natural number. */
  function NatToString(n: nat): (r: string)
    ensures IsDigits(r)
  {
    if n < 10 then [DigitChar(n)] else NatToString(n / 10) + [DigitChar(n % 10)]
  }

  /** str(i) for any integer: a minus sign for negatives, then the digits. */
  function IntToString(i: int): (r: string)
    ensures r != [] && NoSpace(r) && (r[0] == '-' || IsDigit(r[0])) && IsDigit(r[|r| - 1])
    ensures 0 <= i ==> r == NatToString(i)
  {
    if i < 0 then "-" + NatToString(-i) else NatToString(i)
  }

  /** int(str(n)) == n */
  lemma {:induction false} ParseNatToString(n: nat)
    ensures ParseNat(NatToString(n)) == n
  {
    var s := NatToString(n);
    if n >= 10 {
      ParseNatToString(n / 10);
      assert s[..|s| - 1] == NatToString(n / 10);
    }
  }

  /** Index of the first whitespace character of s, or |s| when there is none. */
  function TokenEnd(s: string): (k: nat)
    ensures k <= |s| && NoSpace(s[..k]) && (k < |s| ==> IsSpace(s[k]))
  {
    if s == [] || IsSpace(s[0]) then 0 else 1 + TokenEnd(s[1..])
  }

  /** str.split() without an argument: the maximal runs of non-whitespace characters, in order. */
  function Split(s: string): (parts: seq<string>)
    ensures forall i :: 0 <= i < |parts| ==> parts[i] != [] && NoSpace(parts[i])
    decreases |s|
  {
    var t := TrimLeft(s);
    if t == [] then []
    else
      var k := TokenEnd(t);
      var w := t[..k];
      var rest := Split(t[k..]);
      WordsCons(w, rest);
      [w] + rest
  }

  /** Putting a whitespace-free word in front of whitespace-free words keeps them so. */
  lemma WordsCons(w: string, rest: seq<string>)
    requires w != [] && NoSpace(w)
    requires forall i :: 0 <= i < |rest| ==> rest[i] != [] && NoSpace(rest[i])
    ensures forall i :: 0 <= i < |[w] + rest| ==> ([w] + rest)[i] != [] && NoSpace(([w] + rest)[i])
  {
    forall i | 0 <= i < |[w] + rest| ensures ([w] + rest)[i] != [] && NoSpace(([w] + rest)[i]) {
      if i > 0 { assert ([w] + rest)[i] == rest[i - 1]; }
    }
  }

  /** A string with something other than whitespace splits into at least one word. */
  lemma SplitNonEmpty(s: string)
    requires Trim(s) != []
    ensures Split(s) != []
  {
    assert TrimLeft(s) != [];
  }

  /** sep.join(parts) */
  function Join(parts: seq<string>, sep: string): string {
    if parts == [] then ""
    else if |parts| == 1 then parts[0]
    else parts[0] + sep + Join(parts[1..], sep)
  }

  lemma TokenEndOf(a: string, b: string)
    requires NoSpace(a) && (b == [] || IsSpace(b[0]))
    ensures TokenEnd(a + b) == |a|
    decreases |a|
  {
    if a != [] {
      assert (a + b)[1..] == a[1..] + b;
      TokenEndOf(a[1..], b);
    }
  }

  lemma SplitLeadingSpace(rest: string)
    ensures Split(" " + rest) == Split(rest)
  {
    assert (" " + rest)[1..] == rest;
    assert TrimLeft(" " + rest) == TrimLeft(rest);
  }

  lemma SplitFirstWord(w: string, rest: string)
    requires w != [] && NoSpace(w) && (rest == [] || IsSpace(rest[0]))
    ensures Split(w + rest) == [w] + Split(rest)
  {
    var s := w + rest;
    assert s[0] == w[0];
    assert TrimLeft(s) == s;
    TokenEndOf(w, rest);
    assert s[..|w|] == w && s[|w|..] == rest;
  }

  /** A single word splits into itself. */
  lemma SplitOneWord(w: string)
    requires w != [] && NoSpace(w)
    ensures Split(Join([w], " ")) == [w]
  {
    assert Join([w], " ") == w + [];
    SplitFirstWord(w, []);
    assert Split([]) == [];
  }

  /** A word, a space and the join of further words: the word is put in front of their split. */
  lemma SplitJoinCons(words: seq<string>)
    requires |words| >= 2 && words[0] != [] && NoSpace(words[0])
    requires Split(Join(words[1..], " ")) == words[1..]
    ensures Split(Join(words, " ")) == words
  {
    var rest := Join(words[1..], " ");
    JoinCons(words, " ");
    SplitFirstWord(words[0], " " + rest);
    SplitLeadingSpace(rest);
    HeadTail(words);
  }

  /** Joining at least two parts: the first part, the separator, then the join of the others. */
  lemma JoinCons(parts: seq<string>, sep: string)
    requires |parts| >= 2
    ensures Join(parts, sep) == parts[0] + (sep + Join(parts[1..], sep))
  {
    assert parts[0] + sep + Join(parts[1..], sep) == parts[0] + (sep + Join(parts[1..], sep));
  }

  lemma HeadTail(words: seq<string>)
    requires words != []
    ensures [words[0]] + words[1..] == words
  {
  }

  /** Joining whitespace-free words with single spaces and splitting again gives the words back. */
  lemma {:induction false} SplitJoin(words: seq<string>)
    requires forall i :: 0 <= i < |words| ==> words[i] != [] && NoSpace(words[i])
    ensures Split(Join(words, " ")) == words
  {
    if |words| == 1 {
      SplitOneWord(words[0]);
    } else if |words| >= 2 {
      SplitJoin(words[1..]);
      SplitJoinCons(words);
    }
  }

  /** Position of the first sep in s. */
  function IndexOf(s: string, sep: char): (i: nat)
    requires sep in s
    ensures i < |s| && s[i] == sep && sep !in s[..i]
  {
    if s[0] == sep then 0 else 1 + IndexOf(s[1..], sep)
  }

  /** str.split(sep) for a one-character separator: the pieces between separators, empty ones included. */
  function SplitOn(s: string, sep: char): (parts: seq<string>)
    ensures |parts| >= 1
    ensures forall i :: 0 <= i < |parts| ==> sep !in parts[i]
    decreases |s|
  {
    if sep in s then
      var i := IndexOf(s, sep);
      [s[..i]] + SplitOn(s[i + 1..], sep)
    else [s]
  }

  /** Splitting on a separator and joining with it again gives back the string. */
  lemma {:induction false} JoinSplitOn(s: string, sep: char)
    ensures Join(SplitOn(s, sep), [sep]) == s
    decreases |s|
  {
    if sep in s {
      var i := IndexOf(s, sep);
      JoinSplitOn(s[i + 1..], sep);
      assert s == s[..i] + [sep] + s[i + 1..];
    }
  }

  /** The characters of s that satisfy keep, in order: re.sub of the complement class, or chained str.replace. */
  function Keep(s: string, keep: char -> bool): (r: string)
    ensures |r| <= |s|
    ensures forall i :: 0 <= i < |r| ==> keep(r[i])
    ensures forall c :: c in r <==> c in s && keep(c)
  {
    if s == [] then [] else (if keep(s[0]) then [s[0]] else []) + Keep(s[1..], keep)
  }

  /** Filtering distributes over concatenation: each character is kept or dropped on its own. */
  lemma {:induction false} KeepConcat(a: string, b: string, keep: char -> bool)
    ensures Keep(a + b, keep) == Keep(a, keep) + Keep(b, keep)
  {
    if a != [] {
      assert (a + b)[0] == a[0] && (a + b)[1..] == a[1..] + b;
      KeepConcat(a[1..], b, keep);
      var h := if keep(a[0]) then [a[0]] else [];
      assert Keep(a + b, keep) == h + Keep(a[1..] + b, keep);
      assert Keep(a, keep) == h + Keep(a[1..], keep);
    } else {
      assert a + b == b;
    }
  }

  /** A string made only of kept characters is returned unchanged; in particular filtering is idempotent. */
  lemma {:induction false} KeepAll(s: string, keep: char -> bool)
    requires forall i :: 0 <= i < |s| ==> keep(s[i])
    ensures Keep(s, keep) == s
  {
    if s != [] {
      KeepAll(s[1..], keep);
    }
  }
}
