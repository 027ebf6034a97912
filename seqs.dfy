/**
 The array built-ins the request handlers rely on, as functions over sequences:
 `find`/`findIndex`/`some` (first element satisfying a callback), `indexOf`
 (first element equal to a value) and `splice(i, 1)` (remove one element).
 */
module Seqs {

  datatype Option<+T> = None | Some(value: T)

  /** Index of the first element of `s` that satisfies `p`, as `Array.prototype.findIndex`;
      `find` returns the element at that index and `some` asks whether there is one. */
  function FindIndex<T>(s: seq<T>, p: T -> bool): (r: Option<nat>)
    ensures r.Some? ==> r.value < |s| && p(s[r.value])
    ensures r.Some? ==> forall j :: 0 <= j < r.value ==> !p(s[j])
    ensures r.None? <==> forall j :: 0 <= j < |s| ==> !p(s[j])
  {
    if |s| == 0 then None
    else if p(s[0]) then Some(0)
    else match FindIndex(s[1..], p)
      case None => None
      case Some(k) => Some(k + 1)
  }

  /** Index of the first element equal to `x`, as `Array.prototype.indexOf` (None for -1). */
  function IndexOf<T(==)>(s: seq<T>, x: T): (r: Option<nat>)
    ensures r.Some? ==> r.value < |s| && s[r.value] == x
    ensures r.Some? ==> forall j :: 0 <= j < r.value ==> s[j] != x
    ensures r.None? <==> x !in s
  {
    if |s| == 0 then None
    else if s[0] == x then Some(0)
    else match IndexOf(s[1..], x)
      case None => None
      case Some(k) => Some(k + 1)
  }

  /** `s.splice(i, 1)`: the sequence without its element at `i`. */
  function RemoveAt<T>(s: seq<T>, i: nat): (r: seq<T>)
    requires i < |s|
    ensures |r| == |s| - 1
    ensures forall k :: 0 <= k < i ==> r[k] == s[k]
    ensures forall k :: i <= k < |r| ==> r[k] == s[k + 1]
  {
    s[..i] + s[i + 1..]
  }

  /** Removing one element takes away exactly that element and nothing else. */
  lemma RemoveAtMultiset<T>(s: seq<T>, i: nat)
    requires i < |s|
    ensures multiset(RemoveAt(s, i)) + multiset{s[i]} == multiset(s)
  {
    calc {
      multiset(s);
      { assert s == s[..i] + [s[i]] + s[i + 1..]; }
      multiset(s[..i]) + multiset{s[i]} + multiset(s[i + 1..]);
      { assert RemoveAt(s, i) == s[..i] + s[i + 1..]; }
      multiset(RemoveAt(s, i)) + multiset{s[i]};
    }
  }

  /** The first match of `p` is the first element equal to itself when no earlier element
      equals it, which `FindIndex` guarantees: `indexOf(find(p))` is `findIndex(p)`. */
  lemma IndexOfFound<T>(s: seq<T>, p: T -> bool)
    requires FindIndex(s, p).Some?
    ensures IndexOf(s, s[FindIndex(s, p).value]) == FindIndex(s, p)
  {
  }
}
