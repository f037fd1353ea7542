/** Searches over sequences shared by the row layer and the handlers. */
module Seqs {

  /**
   * Python's `next(i for i, x in enumerate(s) if p(x))` with -1 for "not found":
   * the first position satisfying p, and no earlier one does.
   */
  function FirstWhere<T>(s: seq<T>, p: T -> bool): (i: int)
    ensures -1 <= i < |s|
    ensures 0 <= i ==> p(s[i])
    ensures forall j :: 0 <= j < |s| && (i < 0 || j < i) ==> !p(s[j])
  {
    if s == [] then -1
    else if p(s[0]) then 0
    else
      var k := FirstWhere(s[1..], p);
      if k < 0 then -1 else k + 1
  }

  /** A slice bound as Python reads it: a negative bound counts from the end; both are clipped to [0, n]. */
  function SliceBound(x: int, n: nat): (b: nat)
    ensures b <= n
    ensures 0 <= x ==> b == if x < n then x else n
  {
    if x < 0 then (if x + n < 0 then 0 else x + n) else if x < n then x else n
  }

  /** Python's `s[a:b]`: the elements from the first bound up to the second, none when they cross. */
  function Slice<T>(s: seq<T>, a: int, b: int): (r: seq<T>)
    ensures |r| <= |s|
    ensures 0 <= a <= b ==> |r| <= b - a
    ensures forall k :: 0 <= k < |r| ==> SliceBound(a, |s|) + k < |s| && r[k] == s[SliceBound(a, |s|) + k]
  {
    var lo := SliceBound(a, |s|);
    var hi := SliceBound(b, |s|);
    if hi <= lo then [] else s[lo..hi]
  }

  /**
   * The position `{x: i for i, x in enumerate(s)}` gives a value: its last occurrence, or -1 for
   * a value the sequence does not hold.
   */
  function LastPos<T(==)>(s: seq<T>, x: T): (r: int)
    ensures -1 <= r < |s|
    ensures r >= 0 ==> s[r] == x && forall j :: r < j < |s| ==> s[j] != x
    ensures r < 0 <==> x !in s
  {
    if s == [] then -1
    else if s[|s| - 1] == x then |s| - 1
    else LastPos(s[..|s| - 1], x)
  }

  /** A suffix cut around one of its elements: the part before it, the element, the part after. */
  lemma CutAt<T>(s: seq<T>, lo: nat, i: nat)
    requires lo <= i < |s|
    ensures s[lo..] == s[lo..i] + [s[i]] + s[i + 1..]
  {
  }

  /** A suffix of an updated sequence: the same cut with the new element in the middle. */
  lemma CutAtUpdate<T>(s: seq<T>, lo: nat, i: nat, x: T)
    requires lo <= i < |s|
    ensures s[i := x][lo..] == s[lo..i] + [x] + s[i + 1..]
  {
  }

  /** A suffix of a sequence with one element deleted: the parts before and after it. */
  lemma CutOut<T>(s: seq<T>, lo: nat, i: nat)
    requires lo <= i < |s|
    ensures (s[..i] + s[i + 1..])[lo..] == s[lo..i] + s[i + 1..]
  {
  }

  /** A prefix one longer is the prefix and the next element. */
  lemma TakeSnoc<T>(s: seq<T>, k: nat)
    requires k < |s|
    ensures s[..k + 1] == s[..k] + [s[k]]
  {
  }

  /** A sequence is its prefix followed by the rest. */
  lemma TakeDrop<T>(s: seq<T>, k: nat)
    requires k <= |s|
    ensures s == s[..k] + s[k..]
  {
  }

  /** A prefix followed by the slice after it is the longer prefix. */
  lemma PrefixSlice<T>(s: seq<T>, lo: nat, hi: nat)
    requires lo <= hi <= |s|
    ensures s[..lo] + s[lo..hi] == s[..hi]
  {
  }

  /** A slice grows by the element at its end. */
  lemma SliceSnoc<T>(s: seq<T>, lo: nat, i: nat)
    requires lo <= i < |s|
    ensures s[lo..i + 1] == s[lo..i] + [s[i]]
  {
  }
}
