/** Configured nodes and the order they are put in after loading. */
module NodeOrder {
  import opened Common

  datatype Role = ControlPlane | Worker

  /** rest stands for the fields the order ignores. */
  datatype Node = Node(host: Text, role: Role, rest: int)

  /** strings.Compare. */
  function CompareText(a: Text, b: Text): int {
    if a == [] && b == [] then 0
    else if a == [] then -1
    else if b == [] then 1
    else if a[0] < b[0] then -1
    else if a[0] > b[0] then 1
    else CompareText(a[1..], b[1..])
  }

  /** The comparator given to the sort. */
  function Compare(a: Node, b: Node): int {
    if a.role == ControlPlane && b.role == Worker then -1
    else if a.role == Worker && b.role == ControlPlane then 1
    else CompareText(a.host, b.host)
  }

  /** a comes before b at position k: equal up to there, then smaller or at its end. */
  predicate BeforeAt(a: Text, b: Text, k: nat) {
    k <= |a| && k < |b| && a[..k] == b[..k] && (k == |a| || a[k] < b[k])
  }

  /** It is the lexicographic order. */
  lemma {:induction false} CompareTextIsLexicographic(a: Text, b: Text)
    ensures CompareText(a, b) < 0 <==> exists k: nat :: BeforeAt(a, b, k)
  {
    if a == [] || b == [] || a[0] != b[0] {
      if CompareText(a, b) < 0 { assert BeforeAt(a, b, 0); }
      if k: nat :| BeforeAt(a, b, k) && k > 0 {
        assert a[..k][0] == b[..k][0];
      }
    } else {
      CompareTextIsLexicographic(a[1..], b[1..]);
      if k: nat :| BeforeAt(a[1..], b[1..], k) {
        assert a[..k + 1] == [a[0]] + a[1..][..k] && b[..k + 1] == [b[0]] + b[1..][..k];
        assert BeforeAt(a, b, k + 1);
      }
      if k: nat :| BeforeAt(a, b, k) {
        assert a[1..][..k - 1] == a[..k][1..] && b[1..][..k - 1] == b[..k][1..];
        assert BeforeAt(a[1..], b[1..], k - 1);
      }
    }
  }

  lemma {:induction false} CompareTextIsTotal(a: Text, b: Text)
    ensures CompareText(a, b) == -CompareText(b, a)
    ensures CompareText(a, b) == 0 <==> a == b
  {
    if a != [] && b != [] {
      CompareTextIsTotal(a[1..], b[1..]);
      assert a == [a[0]] + a[1..] && b == [b[0]] + b[1..];
    }
  }

  lemma {:induction false} CompareTextIsTransitive(a: Text, b: Text, c: Text)
    requires CompareText(a, b) <= 0 && CompareText(b, c) <= 0
    ensures CompareText(a, c) <= 0
  {
    if a != [] && b != [] && c != [] && a[0] == b[0] == c[0] {
      CompareTextIsTransitive(a[1..], b[1..], c[1..]);
    }
  }

  /** The comparator is a lawful total preorder; ties share role and host. */
  lemma CompareIsLawful(a: Node, b: Node, c: Node)
    ensures Compare(a, b) == -Compare(b, a)
    ensures Compare(a, b) == 0 <==> a.role == b.role && a.host == b.host
    ensures Compare(a, b) <= 0 && Compare(b, c) <= 0 ==> Compare(a, c) <= 0
  {
    CompareTextIsTotal(a.host, b.host);
    if CompareText(a.host, b.host) <= 0 && CompareText(b.host, c.host) <= 0 {
      CompareTextIsTransitive(a.host, b.host, c.host);
    }
  }

  /** One node is put before another exactly when it alone is a control plane, or the
      roles are equal and its host is lexicographically smaller. */
  lemma ComparePutsFirst(a: Node, b: Node)
    ensures Compare(a, b) < 0 <==>
      (a.role == ControlPlane && b.role == Worker) || (a.role == b.role && exists k: nat :: BeforeAt(a.host, b.host, k))
  {
    CompareTextIsLexicographic(a.host, b.host);
  }

  // ---------------------------------------------------------------- the stable sort

  function Tied(x: Node): Node -> bool { y => Compare(x, y) == 0 }

  predicate NotAfter(a: Node, b: Node) { Compare(a, b) <= 0 }

  ghost predicate Sorted(s: seq<Node>) { OrderedBy(s, NotAfter) }

  /** What a stable sort delivers: an ordered rearrangement in which ties keep their order. */
  ghost predicate IsStableSort(input: seq<Node>, output: seq<Node>) {
    Sorted(output) && forall x :: Filter(output, Tied(x)) == Filter(input, Tied(x))
  }

  function Insert(x: Node, s: seq<Node>): seq<Node> {
    if s == [] then [x]
    else if Compare(x, s[0]) <= 0 then [x] + s
    else [s[0]] + Insert(x, s[1..])
  }

  function StableSort(s: seq<Node>): seq<Node> {
    if s == [] then [] else Insert(s[0], StableSort(s[1..]))
  }

  lemma {:induction false} InsertMembers(x: Node, s: seq<Node>)
    ensures forall y :: y in Insert(x, s) <==> y == x || y in s
  {
    if s != [] {
      assert s == [s[0]] + s[1..];
      InsertMembers(x, s[1..]);
    }
  }

  lemma {:induction false} InsertIntoSorted(x: Node, s: seq<Node>)
    requires Sorted(s)
    ensures Sorted(Insert(x, s))
  {
    if s == [] {
    } else if Compare(x, s[0]) <= 0 {
      forall j | 0 <= j < |s| ensures Compare(x, s[j]) <= 0 {
        CompareIsLawful(x, s[0], s[j]);
      }
    } else {
      var tail := Insert(x, s[1..]);
      InsertIntoSorted(x, s[1..]);
      InsertMembers(x, s[1..]);
      CompareIsLawful(s[0], x, x);
      forall j | 0 <= j < |tail| ensures Compare(s[0], tail[j]) <= 0 {
        assert tail[j] in tail;
      }
    }
  }

  /** Insertion passes only over greater nodes, so it keeps the order of ties. */
  lemma {:induction false} InsertKeepsTies(x: Node, s: seq<Node>, y: Node)
    ensures Filter(Insert(x, s), Tied(y)) == Chosen(y, x) + Filter(s, Tied(y))
  {
    if s == [] {
      assert [x][1..] == [];
    } else if Compare(x, s[0]) <= 0 {
      assert ([x] + s)[1..] == s;
    } else {
      InsertKeepsTies(x, s[1..], y);
      FilterCons(y, s[0], Insert(x, s[1..]));
      NotBothTied(y, x, s[0]);
      assert [] + Filter(s[1..], Tied(y)) == Filter(s[1..], Tied(y));
    }
  }

  function Chosen(y: Node, x: Node): seq<Node> { if Compare(y, x) == 0 then [x] else [] }

  lemma FilterCons(y: Node, x: Node, s: seq<Node>)
    ensures Filter([x] + s, Tied(y)) == Chosen(y, x) + Filter(s, Tied(y))
  {
    assert ([x] + s)[1..] == s;
  }

  lemma NotBothTied(y: Node, a: Node, b: Node)
    requires Compare(a, b) > 0
    ensures Chosen(y, a) == [] || Chosen(y, b) == []
  {
    CompareIsLawful(y, a, b);
  }

  lemma {:induction false} StableSortIsOne(s: seq<Node>)
    ensures IsStableSort(s, StableSort(s))
  {
    if s != [] {
      StableSortIsOne(s[1..]);
      InsertIntoSorted(s[0], StableSort(s[1..]));
      forall x ensures Filter(StableSort(s), Tied(x)) == Filter(s, Tied(x)) {
        InsertKeepsTies(s[0], StableSort(s[1..]), x);
      }
    }
  }

  lemma SameMembers(input: seq<Node>, output: seq<Node>)
    requires forall x :: Filter(output, Tied(x)) == Filter(input, Tied(x))
    ensures forall x :: x in input <==> x in output
  {
    forall x ensures x in input <==> x in output {
      FilterMembers(input, Tied(x));
      FilterMembers(output, Tied(x));
      CompareIsLawful(x, x, x);
    }
  }

  /** The contract leaves no choice: any two stable sorts of a list are equal. */
  lemma {:induction false} StableSortIsUnique(a: seq<Node>, b: seq<Node>)
    requires Sorted(a) && Sorted(b) && forall x :: Filter(b, Tied(x)) == Filter(a, Tied(x))
    ensures a == b
    decreases |a|
  {
    SameMembers(a, b);
    assert a != [] ==> a[0] in b;
    assert b != [] ==> b[0] in a;
    if a != [] && b != [] {
      FirstIsLeast(a, b[0]);
      FirstIsLeast(b, a[0]);
      CompareIsLawful(a[0], b[0], a[0]);
      CompareIsLawful(a[0], a[0], a[0]);
      assert Filter(a, Tied(a[0]))[0] == a[0];
      assert Filter(b, Tied(a[0]))[0] == b[0];
      forall x ensures Filter(b[1..], Tied(x)) == Filter(a[1..], Tied(x)) {
        FilterTail(a, Tied(x));
        FilterTail(b, Tied(x));
      }
      StableSortIsUnique(a[1..], b[1..]);
      assert a == [a[0]] + a[1..] && b == [b[0]] + b[1..];
    }
  }

  lemma FilterTail(s: seq<Node>, keep: Node -> bool)
    requires s != []
    ensures Filter(s[1..], keep) == if keep(s[0]) then Filter(s, keep)[1..] else Filter(s, keep)
  {
  }

  lemma FirstIsLeast(s: seq<Node>, x: Node)
    requires Sorted(s) && x in s
    ensures Compare(s[0], x) <= 0
  {
    CompareIsLawful(x, x, x);
  }
}
