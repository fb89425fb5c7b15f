/** Lists from which one element is taken out. */
module Sequences {

  ghost predicate Distinct<T>(l: seq<T>) {
    forall i, j :: 0 <= i < j < |l| ==> l[i] != l[j]
  }

  function Without<T>(l: seq<T>, k: nat): seq<T>
    requires k < |l|
  {
    l[..k] + l[k + 1..]
  }

  function Remove<T(==)>(l: seq<T>, x: T): (r: seq<T>)
    ensures x !in l ==> r == l
    ensures |r| <= |l|
  {
    if l == [] then [] else if l[0] == x then l[1..] else [l[0]] + Remove(l[1..], x)
  }

  lemma {:induction false} RemoveAt<T>(l: seq<T>, k: nat)
    requires Distinct(l) && k < |l|
    ensures Remove(l, l[k]) == Without(l, k)
  {
    if k > 0 {
      RemoveAt(l[1..], k - 1);
      assert l[1..][..k - 1] == l[1..k];
    }
  }

  lemma {:induction false} RemoveOne<T>(l: seq<T>, x: T)
    requires Distinct(l) && x in l
    ensures Distinct(Remove(l, x)) && |Remove(l, x)| == |l| - 1
    ensures forall y :: y in Remove(l, x) <==> y in l && y != x
  {
    if l[0] == x {
      assert x !in l[1..] && l == [x] + l[1..];
    } else {
      assert l[0] !in l[1..] && l == [l[0]] + l[1..];
      RemoveOne(l[1..], x);
    }
  }
}
