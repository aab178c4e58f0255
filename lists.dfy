/** Positional list edits shared by the field arrays and the players. */
module Lists {

  /** The list without the element at `index`; an index past the end removes nothing. */
  function Removed<T>(s: seq<T>, index: nat): (r: seq<T>)
    ensures index < |s| ==> |r| == |s| - 1
    ensures index >= |s| ==> r == s
    ensures forall k :: 0 <= k < |r| ==> r[k] == (if k < index then s[k] else s[k + 1])
  {
    if index < |s| then s[..index] + s[index + 1..] else s
  }

  predicate Distinct<T(==)>(s: seq<T>) {
    forall i, j :: 0 <= i < j < |s| ==> s[i] != s[j]
  }

  /** Removing an element keeps the others distinct, and drops exactly the removed one. */
  lemma RemovedDistinct<T>(s: seq<T>, index: nat)
    requires Distinct(s) && index < |s|
    ensures Distinct(Removed(s, index))
    ensures s[index] !in Removed(s, index)
    ensures forall x :: x in s && x != s[index] ==> x in Removed(s, index)
  {
    var r := Removed(s, index);
    forall x | x in s && x != s[index]
      ensures x in r
    {
      var k :| 0 <= k < |s| && s[k] == x;
      if k < index {
        assert r[k] == x;
      } else {
        assert r[k - 1] == x;
      }
    }
  }

  /** `n` consecutive naturals from `start`. */
  function Range(start: nat, n: nat): (r: seq<nat>)
    ensures |r| == n
    ensures forall k :: 0 <= k < n ==> r[k] == start + k
  {
    seq(n, k requires 0 <= k => start + k)
  }
}
