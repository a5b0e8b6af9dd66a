/** Shared vocabulary: bytes, optional values, and order-preserving filters. */
module Common {

  newtype byte = x: int | 0 <= x < 256

  /** A Go string or []byte. */
  type Text = seq<byte>

  datatype Option<+T> = None | Some(value: T)

  ghost predicate NoDuplicates<T>(s: seq<T>) {
    forall i, j :: 0 <= i < j < |s| ==> s[i] != s[j]
  }

  function Filter<T>(s: seq<T>, keep: T -> bool): (r: seq<T>)
  {
    if s == [] then [] else
    (if keep(s[0]) then [s[0]] else []) + Filter(s[1..], keep)
  }

  lemma {:induction false} FilterSnoc<T>(s: seq<T>, x: T, keep: T -> bool)
    ensures Filter(s + [x], keep) == Filter(s, keep) + (if keep(x) then [x] else [])
  {
    if s == [] {
      assert s + [x] == [x];
    } else {
      FilterSnoc(s[1..], x, keep);
      var first := if keep(s[0]) then [s[0]] else [];
      var last := if keep(x) then [x] else [];
      assert (s + [x])[1..] == s[1..] + [x];
      assert Filter(s + [x], keep) == first + Filter(s[1..] + [x], keep);
      ConcatAssociates(first, Filter(s[1..], keep), last);
    }
  }

  lemma {:induction false} FilterMembers<T>(s: seq<T>, keep: T -> bool)
    ensures forall x :: x in Filter(s, keep) <==> x in s && keep(x)
  {
    if s != [] {
      FilterMembers(s[1..], keep);
      assert s == [s[0]] + s[1..];
    }
  }

  lemma FilterMember<T>(s: seq<T>, keep: T -> bool, x: T)
    requires x in Filter(s, keep)
    ensures x in s && keep(x)
  {
    FilterMembers(s, keep);
  }

  ghost predicate OrderedBy<T>(s: seq<T>, le: (T, T) -> bool) {
    forall i, j :: 0 <= i < j < |s| ==> le(s[i], s[j])
  }

  lemma {:induction false} FilterDistinct<T>(s: seq<T>, keep: T -> bool)
    requires NoDuplicates(s)
    ensures NoDuplicates(Filter(s, keep))
  {
    if s != [] {
      FilterDistinct(s[1..], keep);
      FilterMembers(s[1..], keep);
    }
  }

  lemma {:induction false} FilterKeepsOrder<T>(s: seq<T>, keep: T -> bool, le: (T, T) -> bool)
    requires OrderedBy(s, le)
    ensures OrderedBy(Filter(s, keep), le)
  {
    if s != [] {
      var tail := Filter(s[1..], keep);
      FilterKeepsOrder(s[1..], keep, le);
      forall j | 0 <= j < |tail| ensures le(s[0], tail[j]) {
        FilterMember(s[1..], keep, tail[j]);
        var k :| 0 <= k < |s[1..]| && s[1..][k] == tail[j];
        assert le(s[0], s[k + 1]);
      }
    }
  }

  lemma {:induction false} FilterNone<T>(s: seq<T>, keep: T -> bool)
    requires forall k :: 0 <= k < |s| ==> !keep(s[k])
    ensures Filter(s, keep) == []
  {
    if s != [] { FilterNone(s[1..], keep); }
  }

  /** What a selection begins with is the first element selected. */
  lemma {:induction false} FilterHead<T>(s: seq<T>, keep: T -> bool) returns (k: nat)
    requires Filter(s, keep) != []
    ensures k < |s| && s[k] == Filter(s, keep)[0] && keep(s[k])
    ensures forall j :: 0 <= j < k ==> !keep(s[j])
  {
    if keep(s[0]) {
      k := 0;
    } else {
      var rest := FilterHead(s[1..], keep);
      k := rest + 1;
      assert forall j :: 1 <= j <= k ==> s[j] == s[1..][j - 1];
    }
  }

  lemma ConcatAssociates<T>(a: seq<T>, b: seq<T>, c: seq<T>)
    ensures a + (b + c) == (a + b) + c
  {
  }

  lemma DropOfConcat<T>(a: seq<T>, b: seq<T>, k: nat)
    requires k <= |a|
    ensures (a + b)[k..] == a[k..] + b
  {
  }

  lemma TakeAndDrop<T>(a: seq<T>, k: nat)
    requires k <= |a|
    ensures a[..k] + a[k..] == a
  {
  }

  /** The sum of f over s. */
  function Total<T>(s: seq<T>, f: T -> nat): nat {
    if s == [] then 0 else f(s[0]) + Total(s[1..], f)
  }

  lemma {:induction false} TotalUpdate<T>(s: seq<T>, f: T -> nat, k: nat, x: T)
    requires k < |s|
    ensures Total(s[k := x], f) + f(s[k]) == Total(s, f) + f(x)
  {
    if k == 0 {
      assert s[k := x][1..] == s[1..];
    } else {
      assert s[k := x][1..] == s[1..][k - 1 := x];
      TotalUpdate(s[1..], f, k - 1, x);
    }
  }

  lemma {:induction false} TotalAtMostLength<T>(s: seq<T>, f: T -> nat)
    requires forall x :: f(x) <= 1
    ensures Total(s, f) <= |s|
  {
    if s != [] { TotalAtMostLength(s[1..], f); }
  }

  /** A set whose members have distinct values below n has at most n members. */
  lemma {:induction false} InjectionBound(s: set<nat>, f: seq<nat>, n: nat)
    requires forall x :: x in s ==> x < |f| && f[x] < n
    requires forall x, y :: x in s && y in s && f[x] == f[y] ==> x == y
    ensures |s| <= n
  {
    if n == 0 {
      assert s == {};
    } else if x :| x in s && f[x] == n - 1 {
      InjectionBound(s - {x}, f, n - 1);
    } else {
      InjectionBound(s, f, n - 1);
    }
  }

  lemma {:induction false} ElementsOfDistinct<T>(s: seq<T>)
    requires NoDuplicates(s)
    ensures |set x | x in s| == |s|
  {
    if s != [] {
      var rest := s[1..];
      ElementsOfDistinct(rest);
      assert (set x | x in s) == (set x | x in rest) + {s[0]};
    }
  }

  /** Distinct naturals below n: at most n of them. */
  lemma {:induction false} BoundedSetSize(s: set<nat>, n: nat)
    requires forall x :: x in s ==> x < n
    ensures |s| <= n
  {
    if n == 0 {
      assert s == {};
    } else {
      BoundedSetSize(s - {n - 1}, n - 1);
    }
  }

  lemma {:induction false} SubsetSize(a: set<nat>, b: set<nat>)
    requires a <= b
    ensures |a| <= |b|
  {
    if x :| x in a { SubsetSize(a - {x}, b - {x}); }
  }

  lemma {:induction false} SetOfAllBelow(s: set<nat>, n: nat)
    requires forall x :: 0 <= x < n <==> x in s
    ensures |s| == n
  {
    if n == 0 {
      assert s == {};
    } else {
      SetOfAllBelow(s - {n - 1}, n - 1);
    }
  }

  /** Two lists of distinct elements with the same members are rearrangements. */
  lemma DistinctRearranged<T>(a: seq<T>, b: seq<T>)
    requires NoDuplicates(a) && NoDuplicates(b) && forall x :: x in a <==> x in b
    ensures multiset(a) == multiset(b)
  {
    forall x ensures multiset(a)[x] == multiset(b)[x] {
      OnceEach(a, x);
      OnceEach(b, x);
    }
  }

  lemma {:induction false} OnceEach<T>(s: seq<T>, x: T)
    requires NoDuplicates(s)
    ensures multiset(s)[x] == if x in s then 1 else 0
  {
    if s != [] {
      assert s == [s[0]] + s[1..];
      OnceEach(s[1..], x);
    }
  }
}
