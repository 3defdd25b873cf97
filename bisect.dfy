/** bisect.py: the lower-bound binary search. */
module Bisect {

  ghost predicate Sorted(a: seq<int>) {
    forall i, j :: 0 <= i < j < |a| ==> a[i] <= a[j]
  }

  /** The position at which x would be inserted into a to keep it sorted: every element before
      it is less than x and every element from it on is at least x. Without sortedness the
      neighbours of the result still bracket x. */
  method Bisect(a: seq<int>, x: int) returns (lo: nat)
    ensures lo <= |a|
    ensures lo > 0 ==> a[lo - 1] < x
    ensures lo < |a| ==> a[lo] >= x
    ensures Sorted(a) ==> forall k :: 0 <= k < lo ==> a[k] < x
    ensures Sorted(a) ==> forall k :: lo <= k < |a| ==> a[k] >= x
  {
    lo := 0;
    var hi := |a|;
    while lo < hi
      invariant 0 <= lo <= hi <= |a|
      invariant lo > 0 ==> a[lo - 1] < x
      invariant hi < |a| ==> a[hi] >= x
      invariant Sorted(a) ==> forall k :: 0 <= k < lo ==> a[k] < x
      invariant Sorted(a) ==> forall k :: hi <= k < |a| ==> a[k] >= x
      decreases hi - lo
    {
      var mid := (lo + hi) / 2;
      if a[mid] < x {
        lo := mid + 1;
      } else {
        hi := mid;
      }
    }
  }
}
