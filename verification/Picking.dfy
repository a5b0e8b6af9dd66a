/** Picking the elements of a list at given positions. */
module Picking {
  import opened Common

  function Pick<T>(s: seq<T>, at: seq<nat>): (r: seq<T>)
    requires forall i :: i in at ==> i < |s|
    ensures |r| == |at| && forall k :: 0 <= k < |r| ==> at[k] < |s| && r[k] == s[at[k]]
  {
    assert forall k :: 0 <= k < |at| ==> at[k] in at;
    seq(|at|, k requires 0 <= k < |at| => s[at[k]])
  }

  lemma PickConcat<T>(s: seq<T>, a: seq<nat>, b: seq<nat>)
    requires forall i :: i in a + b ==> i < |s|
    ensures (forall i :: i in a ==> i < |s|) && (forall i :: i in b ==> i < |s|)
    ensures Pick(s, a + b) == Pick(s, a) + Pick(s, b)
  {
    assert forall i :: i in a ==> i in a + b;
    assert forall i :: i in b ==> i in a + b;
  }

  /** at without its k-th position. */
  function Without(at: seq<nat>, k: nat): seq<nat>
    requires k < |at|
  {
    at[..k] + at[k + 1..]
  }

  lemma WithoutOne(at: seq<nat>, k: nat)
    requires k < |at|
    ensures multiset(at) == multiset{at[k]} + multiset(Without(at, k))
    ensures forall i :: i in Without(at, k) ==> i in at
  {
    assert at == at[..k] + [at[k]] + at[k + 1..];
  }

  lemma PickWithout<T>(s: seq<T>, at: seq<nat>, k: nat)
    requires (forall i :: i in at ==> i < |s|) && k < |at|
    ensures forall i :: i in Without(at, k) ==> i < |s|
    ensures at[k] < |s| && multiset(Pick(s, at)) == multiset{s[at[k]]} + multiset(Pick(s, Without(at, k)))
  {
    WithoutOne(at, k);
    var all, some := Pick(s, at), Pick(s, Without(at, k));
    assert all == all[..k] + [s[at[k]]] + all[k + 1..];
    assert some == all[..k] + all[k + 1..];
  }

  /** Rearranging the positions rearranges what is picked. */
  lemma {:induction false} PickRearranged<T>(s: seq<T>, a: seq<nat>, b: seq<nat>)
    requires (forall i :: i in a ==> i < |s|) && multiset(a) == multiset(b)
    ensures forall i :: i in b ==> i < |s|
    ensures multiset(Pick(s, a)) == multiset(Pick(s, b))
    decreases |a|
  {
    SameMembers(a, b);
    assert |a| == |multiset(a)| == |multiset(b)| == |b|;
    if a != [] {
      assert a[0] in a;
      var k :| 0 <= k < |b| && b[k] == a[0];
      WithoutOne(a, 0);
      WithoutOne(b, k);
      PickWithout(s, a, 0);
      PickWithout(s, b, k);
      assert multiset(Without(a, 0)) == multiset(a) - multiset{a[0]};
      assert multiset(Without(b, k)) == multiset(b) - multiset{a[0]};
      PickRearranged(s, Without(a, 0), Without(b, k));
    }
  }

  lemma SameMembers(a: seq<nat>, b: seq<nat>)
    requires multiset(a) == multiset(b)
    ensures forall i :: i in a <==> i in b
  {
    assert forall i :: i in a <==> i in multiset(a);
    assert forall i :: i in b <==> i in multiset(b);
  }

  function Upto(k: nat): seq<nat> { seq(k, j => j) }

  function Besides(at: seq<nat>): nat -> bool { (i: nat) => i !in at }

  /** The positions not among these. */
  function Others(n: nat, at: seq<nat>): seq<nat> { Filter(Upto(n), Besides(at)) }

  lemma OthersComplete(n: nat, at: seq<nat>)
    requires (forall i :: i in at ==> i < n) && NoDuplicates(at)
    ensures multiset(at + Others(n, at)) == multiset(Upto(n))
  {
    FilterMembers(Upto(n), Besides(at));
    FilterDistinct(Upto(n), Besides(at));
    forall i ensures i in at + Others(n, at) <==> i in Upto(n) {
      assert 0 <= i < n ==> Upto(n)[i] == i;
    }
    assert NoDuplicates(Upto(n)) by {
      assert forall i :: 0 <= i < n ==> Upto(n)[i] == i;
    }
    assert forall k :: 0 <= k < |at| ==> at[k] in at;
    assert forall k :: 0 <= k < |Others(n, at)| ==> Others(n, at)[k] in Others(n, at);
    DistinctRearranged(at + Others(n, at), Upto(n));
  }

  /** Distinct positions pick each element at most once, and all of them if there are
      as many positions as elements. */
  lemma PickDistinct<T>(s: seq<T>, at: seq<nat>)
    requires (forall i :: i in at ==> i < |s|) && NoDuplicates(at)
    ensures multiset(Pick(s, at)) <= multiset(s)
    ensures |at| == |s| ==> multiset(Pick(s, at)) == multiset(s)
  {
    var left := Others(|s|, at);
    OthersComplete(|s|, at);
    SameMembers(at + left, Upto(|s|));
    PickConcat(s, at, left);
    PickRearranged(s, at + left, Upto(|s|));
    assert Pick(s, Upto(|s|)) == s;
    assert multiset(s) == multiset(Pick(s, at)) + multiset(Pick(s, left));
    assert |multiset(at + left)| == |at| + |left|;
    assert |multiset(Upto(|s|))| == |s|;
  }

  function Selected<T>(s: seq<T>, keep: T -> bool): nat -> bool { (i: nat) => i < |s| && keep(s[i]) }

  /** Selecting from what is picked is picking at selected positions. */
  lemma {:induction false} PickFilter<T>(s: seq<T>, at: seq<nat>, keep: T -> bool)
    requires forall i :: i in at ==> i < |s|
    ensures forall i: nat :: i in Filter<nat>(at, Selected(s, keep)) ==> i < |s|
    ensures Filter(Pick(s, at), keep) == Pick(s, Filter<nat>(at, Selected(s, keep)))
  {
    FilterMembers<nat>(at, Selected(s, keep));
    if at != [] {
      var rest := at[1..];
      assert forall i :: i in rest ==> i in at;
      PickFilter(s, rest, keep);
      assert at[0] in at && Pick(s, at) == [s[at[0]]] + Pick(s, rest);
      PickCons(s, at[0], Filter<nat>(rest, Selected(s, keep)));
    }
  }

  lemma PickCons<T>(s: seq<T>, i: nat, at: seq<nat>)
    requires i < |s| && forall j :: j in at ==> j < |s|
    ensures Pick(s, [i] + at) == [s[i]] + Pick(s, at)
    ensures Pick(s, [] + at) == Pick(s, at)
  {
    assert [] + at == at;
  }
}
