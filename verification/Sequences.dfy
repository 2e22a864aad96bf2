/** Sequences as vectors whose items change places. */
module Sequences {
  ghost predicate Distinct<T>(s: seq<T>)
  {
    forall i, j | 0 <= i < j < |s| :: s[i] != s[j]
  }

  // The item at k has gone, and the last one is in its place.
  function Erased<T>(s: seq<T>, k: nat): (t: seq<T>)
    requires k < |s|
    ensures |t| == |s| - 1
  {
    s[k := s[|s| - 1]][..|s| - 1]
  }

  function Swapped<T>(s: seq<T>, i: nat, j: nat): (t: seq<T>)
    requires i < |s| && j < |s|
    ensures |t| == |s|
  {
    s[i := s[j]][j := s[i]]
  }

  lemma SwapMembers<T>(s: seq<T>, i: nat, j: nat)
    requires i < |s| && j < |s|
    ensures forall x :: x in Swapped(s, i, j) <==> x in s
  {
    var t := Swapped(s, i, j);
    forall x | x in s ensures x in t {
      var k :| 0 <= k < |s| && s[k] == x;
      assert t[if k == i then j else if k == j then i else k] == x;
    }
  }

  // Of a sequence without repetitions, there are as many items at some places as there are places.
  lemma {:induction false} PlacesCount<T>(s: seq<T>, ks: set<nat>)
    requires Distinct(s) && forall k | k in ks :: k < |s|
    ensures |set k | k in ks :: s[k]| == |ks|
  {
    if ks != {} {
      var j :| j in ks;
      PlacesCount(s, ks - {j});
      assert (set k | k in ks :: s[k]) == (set k | k in ks - {j} :: s[k]) + {s[j]};
    }
  }

  lemma Assoc<T>(a: seq<T>, b: seq<T>, c: seq<T>)
    ensures a + b + c == a + (b + c)
  {
  }

  function Trues(s: seq<bool>): (n: nat)
    ensures n <= |s|
  {
    if s == [] then 0 else Trues(s[..|s| - 1]) + if s[|s| - 1] then 1 else 0
  }
}
