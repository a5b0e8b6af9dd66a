/** Secret extraction over pairs of YAML documents, and the check that skips it. */
module Extraction {
  import opened Common
  import opened YamlTree
  import YamlUtils

  /** What a decoder will deliver: documents, then the end of the input or an error. */
  datatype Input = Input(docs: seq<Tree>, broken: bool)

  datatype Decoded = Doc(tree: Tree) | Eof | DecodeError

  class Decoder {
    const input: Input
    var pos: nat

    ghost predicate Valid()
      reads this
    {
      pos <= |input.docs|
    }

    constructor (input: Input)
      ensures Valid() && this.input == input && pos == 0
    {
      this.input := input;
      pos := 0;
    }

    method Decode() returns (r: Decoded)
      requires Valid()
      modifies this
      ensures Valid()
      ensures old(pos) < |input.docs| ==> r == Doc(input.docs[old(pos)]) && pos == old(pos) + 1
      ensures old(pos) == |input.docs| ==> pos == old(pos) && r == if input.broken then DecodeError else Eof
    {
      if pos < |input.docs| {
        r := Doc(input.docs[pos]);
        pos := pos + 1;
      } else {
        r := if input.broken then DecodeError else Eof;
      }
    }
  }

  // ---------------------------------------------------------------- what is extracted

  function Secret(doc: Tree, path: Path): seq<Text> {
    var r := Resolve(doc, path);
    if r.Found? && r.value.Str? && r.value.text != [] then [r.value.text] else []
  }

  function SecretsAt(paths: seq<Path>, doc: Tree): seq<Text> {
    if paths == [] then [] else Secret(doc, paths[0]) + SecretsAt(paths[1..], doc)
  }

  /** The secrets of document pairs from the first on, given the order in which each
      document's paths were collected. */
  function SecretsOf(orders: seq<seq<Path>>, after: seq<Tree>): seq<Text>
    requires |orders| <= |after|
  {
    if orders == [] then []
    else
      var last := |orders| - 1;
      SecretsOf(orders[..last], after) + SecretsAt(orders[last], after[last])
  }

  function Shared(before: Input, after: Input): nat {
    if |before.docs| <= |after.docs| then |before.docs| else |after.docs|
  }

  /** Each order lists the matching paths of its document, for every document that
      both inputs decode. */
  ghost predicate AreOrders(orders: seq<seq<Path>>, before: Input, after: Input, pred: Text -> bool) {
    |orders| == Shared(before, after) && AreFirstOrders(orders, before, pred)
  }

  ghost predicate AreFirstOrders(orders: seq<seq<Path>>, before: Input, pred: Text -> bool) {
    |orders| <= |before.docs| &&
    forall d :: 0 <= d < |orders| ==> Enumerates(orders[d], before.docs[d], pred)
  }

  lemma OneMoreOrder(orders: seq<seq<Path>>, order: seq<Path>, before: Input, pred: Text -> bool)
    requires AreFirstOrders(orders, before, pred) && |orders| < |before.docs|
    requires Enumerates(order, before.docs[|orders|], pred)
    ensures AreFirstOrders(orders + [order], before, pred)
  {
  }

  lemma OneMoreDocument(orders: seq<seq<Path>>, order: seq<Path>, after: seq<Tree>)
    requires |orders| < |after|
    ensures SecretsOf(orders + [order], after) == SecretsOf(orders, after) + SecretsAt(order, after[|orders|])
  {
    assert (orders + [order])[..|orders|] == orders;
  }

  /** secrets is what extraction yields for some order of each document's paths. */
  ghost predicate IsExtraction(secrets: seq<Text>, before: Input, after: Input, pred: Text -> bool) {
    exists orders :: AreOrders(orders, before, after, pred) && secrets == SecretsOf(orders, after.docs)
  }

  /** ExtractSecrets. The order of paths is that of Go's map iteration, which is arbitrary. */
  method ExtractSecrets(before: Input, after: Input, pred: Text -> bool) returns (secrets: seq<Text>)
    ensures IsExtraction(secrets, before, after, pred)
    ensures forall v :: v in secrets <==> v != [] && exists d, p :: Leads(before, after, pred, v, d, p)
  {
    var beforeDec := new Decoder(before);
    var afterDec := new Decoder(after);
    ghost var orders: seq<seq<Path>> := [];
    secrets := [];
    while true
      invariant beforeDec.input == before && afterDec.input == after && beforeDec != afterDec
      invariant fresh(beforeDec) && fresh(afterDec)
      invariant beforeDec.pos == afterDec.pos == |orders| <= Shared(before, after)
      invariant AreFirstOrders(orders, before, pred)
      invariant secrets == SecretsOf(orders, after.docs)
      decreases |before.docs| - |orders|
    {
      var b := beforeDec.Decode();
      var a := afterDec.Decode();
      if b.Eof? || a.Eof? { break; }
      if !b.Doc? || !a.Doc? { break; }
      var found, order := DocumentSecrets(b.tree, a.tree, pred);
      OneMoreOrder(orders, order, before, pred);
      OneMoreDocument(orders, order, after.docs);
      secrets := secrets + found;
      orders := orders + [order];
    }
    assert AreOrders(orders, before, after, pred);
    forall v ensures v in secrets <==> v != [] && exists d, p :: Leads(before, after, pred, v, d, p) {
      ExtractedExactly(orders, before, after, pred, v);
    }
  }

  /** The body of the loop: collect the paths of one document, resolve them in the other. */
  method DocumentSecrets(before: Tree, after: Tree, pred: Text -> bool)
    returns (secrets: seq<Text>, ghost order: seq<Path>)
    ensures Enumerates(order, before, pred) && secrets == SecretsAt(order, after)
  {
    var paths := new YamlUtils.PathList();
    var none := new Segment[0];
    order := YamlUtils.CollectPaths(before, YamlUtils.Slice(none, 0), paths, pred);
    assert none[..0] == [];
    secrets := [];
    for k := 0 to |paths.items|
      invariant YamlUtils.Stored(paths.items, 0, [], order)
      invariant secrets + SecretsAt(order[k..], after) == SecretsAt(order, after)
    {
      assert paths.items[0 + k][..] == [] + order[k];
      OneMoreSecret(secrets, order, k, after);
      var val := YamlUtils.ResolvePath(after, paths.items[k][..]);
      if val.Found? && val.value.Str? && val.value.text != [] {
        secrets := secrets + [val.value.text];
      }
    }
  }

  lemma OneMoreSecret(secrets: seq<Text>, order: seq<Path>, k: nat, doc: Tree)
    requires k < |order|
    ensures [] + order[k] == order[k]
    ensures secrets + SecretsAt(order[k..], doc) == secrets + Secret(doc, order[k]) + SecretsAt(order[k + 1..], doc)
    ensures secrets + [] == secrets
  {
    ConcatAssociates(secrets, Secret(doc, order[k]), SecretsAt(order[k + 1..], doc));
    assert order[k..][1..] == order[k + 1..];
  }

  // ---------------------------------------------------------------- completeness and exactness

  lemma {:induction false} InSecretsAt(paths: seq<Path>, doc: Tree, v: Text)
    ensures v in SecretsAt(paths, doc) <==> v != [] && exists p :: p in paths && Resolve(doc, p) == Found(Str(v))
  {
    if paths != [] {
      InSecretsAt(paths[1..], doc, v);
      assert paths == [paths[0]] + paths[1..];
      if v in Secret(doc, paths[0]) {
        assert paths[0] in paths && Resolve(doc, paths[0]) == Found(Str(v));
      }
    }
  }

  ghost predicate FoundIn(orders: seq<seq<Path>>, after: seq<Tree>, v: Text, d: int)
    requires |orders| <= |after|
  {
    0 <= d < |orders| && v in SecretsAt(orders[d], after[d])
  }

  lemma {:induction false} InSecretsOf(orders: seq<seq<Path>>, after: seq<Tree>, v: Text)
    requires |orders| <= |after|
    ensures v in SecretsOf(orders, after) <==> exists d :: FoundIn(orders, after, v, d)
  {
    if orders != [] {
      var last := |orders| - 1;
      InSecretsOf(orders[..last], after, v);
      if d :| FoundIn(orders[..last], after, v, d) {
        assert FoundIn(orders, after, v, d);
      }
      if v in SecretsAt(orders[last], after[last]) {
        assert FoundIn(orders, after, v, last);
      }
      if d :| FoundIn(orders, after, v, d) {
        assert d == last || FoundIn(orders[..last], after, v, d);
      }
    }
  }

  /** p led to a matching string before, and leads to v after, in document d. */
  ghost predicate Leads(before: Input, after: Input, pred: Text -> bool, v: Text, d: int, p: Path) {
    0 <= d < Shared(before, after) && Matches(before.docs[d], pred, p) && Resolve(after.docs[d], p) == Found(Str(v))
  }

  /** A value is extracted exactly when, in some document both inputs decode, it is the
      non-empty string found after at a path that led before to a matching string. */
  lemma ExtractedExactly(orders: seq<seq<Path>>, before: Input, after: Input, pred: Text -> bool, v: Text)
    requires AreOrders(orders, before, after, pred)
    ensures v in SecretsOf(orders, after.docs) <==> v != [] && exists d, p :: Leads(before, after, pred, v, d, p)
  {
    InSecretsOf(orders, after.docs, v);
    if v in SecretsOf(orders, after.docs) {
      var d :| FoundIn(orders, after.docs, v, d);
      InSecretsAt(orders[d], after.docs[d], v);
      var p :| p in orders[d] && Resolve(after.docs[d], p) == Found(Str(v));
      assert Leads(before, after, pred, v, d, p);
    }
    if v != [] {
      forall d, p | Leads(before, after, pred, v, d, p)
        ensures v in SecretsOf(orders, after.docs)
      {
        InSecretsAt(orders[d], after.docs[d], v);
        assert p in orders[d];
        assert FoundIn(orders, after.docs, v, d);
      }
    }
  }

  lemma {:induction false} SecretsAtConcat(a: seq<Path>, b: seq<Path>, doc: Tree)
    ensures SecretsAt(a + b, doc) == SecretsAt(a, doc) + SecretsAt(b, doc)
  {
    if a == [] {
      assert a + b == b;
    } else {
      assert (a + b)[1..] == a[1..] + b;
      SecretsAtConcat(a[1..], b, doc);
    }
  }

  /** b without its k-th path. */
  function Without(b: seq<Path>, k: nat): seq<Path>
    requires k < |b|
  {
    b[..k] + b[k + 1..]
  }

  lemma WithoutMembers(b: seq<Path>, k: nat)
    requires k < |b| && NoDuplicates(b)
    ensures NoDuplicates(Without(b, k)) && forall q :: q in Without(b, k) <==> q in b && q != b[k]
  {
    forall q ensures q in Without(b, k) <==> q in b && q != b[k] {
      if q in b && q != b[k] {
        var j :| 0 <= j < |b| && b[j] == q;
        assert Without(b, k)[if j < k then j else j - 1] == q;
      }
    }
  }

  lemma SecretsWithout(b: seq<Path>, k: nat, doc: Tree)
    requires k < |b|
    ensures multiset(SecretsAt(b, doc)) == multiset(Secret(doc, b[k])) + multiset(SecretsAt(Without(b, k), doc))
  {
    var front, back := b[..k], b[k + 1..];
    assert b == front + ([b[k]] + back);
    SecretsAtConcat(front, [b[k]] + back, doc);
    SecretsAtConcat(front, back, doc);
    assert ([b[k]] + back)[1..] == back;
  }

  /** The order in which a document's paths are visited changes only the order of its secrets. */
  lemma {:induction false} OrderIsIrrelevant(a: seq<Path>, b: seq<Path>, doc: Tree)
    requires NoDuplicates(a) && NoDuplicates(b) && forall p :: p in a <==> p in b
    ensures multiset(SecretsAt(a, doc)) == multiset(SecretsAt(b, doc))
    decreases |a|
  {
    assert b != [] ==> b[0] in a;
    if a != [] {
      assert a[0] in b;
      var k :| 0 <= k < |b| && b[k] == a[0];
      WithoutMembers(a, 0);
      WithoutMembers(b, k);
      SecretsWithout(a, 0, doc);
      SecretsWithout(b, k, doc);
      OrderIsIrrelevant(Without(a, 0), Without(b, k), doc);
    }
  }

  lemma {:induction false} RunsAgree(x: seq<seq<Path>>, y: seq<seq<Path>>, before: Input, after: seq<Tree>,
                                     pred: Text -> bool)
    requires |x| == |y| <= |after| && |x| <= |before.docs|
    requires AreFirstOrders(x, before, pred) && AreFirstOrders(y, before, pred)
    ensures multiset(SecretsOf(x, after)) == multiset(SecretsOf(y, after))
  {
    if x != [] {
      var last := |x| - 1;
      RunsAgree(x[..last], y[..last], before, after, pred);
      OrderIsIrrelevant(x[last], y[last], after[last]);
    }
  }

  // ---------------------------------------------------------------- a faithful transformation

  /** data with every matching leaf replaced, by a text that may depend on where it is. */
  function Replaced(data: Tree, pred: Text -> bool, at: Path, plain: (Path, Text) -> Text): Tree
    decreases data
  {
    match data
    case Mapping(m) => Mapping(map k | k in m :: Replaced(m[k], pred, at + [Key(k)], plain))
    case Sequence(items) =>
      Sequence(seq(|items|, i requires 0 <= i < |items| => Replaced(items[i], pred, at + [Index(i)], plain)))
    case Str(text) => if pred(text) then Str(plain(at, text)) else data
    case _ => data
  }

  function LeafText(data: Tree, pred: Text -> bool, p: Path): Text
    requires Matches(data, pred, p)
  {
    Resolve(data, p).value.text
  }

  lemma {:induction false} ReplacedLeaf(data: Tree, pred: Text -> bool, at: Path, plain: (Path, Text) -> Text, p: Path)
    requires Matches(data, pred, p)
    ensures Resolve(Replaced(data, pred, at, plain), p) == Found(Str(plain(at + p, LeafText(data, pred, p))))
    decreases |p|
  {
    if p == [] {
      assert at + p == at;
    } else {
      assert (at + [p[0]]) + p[1..] == at + p;
      ReplacedLeaf(Child(data, p[0]).value, pred, at + [p[0]], plain, p[1..]);
    }
  }

  /** When the transformation only turns every matching leaf into a non-empty text, what
      is extracted is exactly those texts, one for each matching leaf. */
  lemma {:induction false} ExtractionIsExact(paths: seq<Path>, data: Tree, pred: Text -> bool,
                                             plain: (Path, Text) -> Text)
    requires forall p :: p in paths ==> Matches(data, pred, p)
    requires forall p, t :: plain(p, t) != []
    ensures |SecretsAt(paths, Replaced(data, pred, [], plain))| == |paths|
    ensures forall k :: 0 <= k < |paths| ==>
      SecretsAt(paths, Replaced(data, pred, [], plain))[k] == plain(paths[k], LeafText(data, pred, paths[k]))
  {
    if paths != [] {
      var rest := paths[1..];
      assert forall p :: p in rest ==> p in paths;
      ExtractionIsExact(rest, data, pred, plain);
      ReplacedLeaf(data, pred, [], plain, paths[0]);
      assert [] + paths[0] == paths[0];
    }
  }

  /** The texts that replaced the leaves at these paths. */
  function PlainsAt(paths: seq<Path>, data: Tree, pred: Text -> bool, plain: (Path, Text) -> Text): seq<Text>
    requires forall k :: 0 <= k < |paths| ==> Matches(data, pred, paths[k])
  {
    seq(|paths|, k requires 0 <= k < |paths| => plain(paths[k], LeafText(data, pred, paths[k])))
  }

  lemma OrderMatches(paths: seq<Path>, data: Tree, pred: Text -> bool)
    requires Enumerates(paths, data, pred)
    ensures forall k :: 0 <= k < |paths| ==> Matches(data, pred, paths[k])
  {
    assert forall k :: 0 <= k < |paths| ==> paths[k] in paths;
  }

  /** All of them, document after document; plains[d] made the texts of document d. */
  ghost function PlainsOf(orders: seq<seq<Path>>, before: Input, pred: Text -> bool,
                          plains: seq<(Path, Text) -> Text>): seq<Text>
    requires AreFirstOrders(orders, before, pred) && |orders| <= |plains|
  {
    if orders == [] then []
    else
      var last := |orders| - 1;
      OrderMatches(orders[last], before.docs[last], pred);
      PlainsOf(orders[..last], before, pred, plains) + PlainsAt(orders[last], before.docs[last], pred, plains[last])
  }

  /** Every document both inputs decode has had its matching leaves, and only those,
      replaced by non-empty texts. */
  ghost predicate OnlyLeavesReplaced(before: Input, after: Input, pred: Text -> bool,
                                     plains: seq<(Path, Text) -> Text>)
  {
    && |plains| == Shared(before, after)
    && forall d :: 0 <= d < |plains| ==>
        after.docs[d] == Replaced(before.docs[d], pred, [], plains[d]) && NeverEmpty(plains[d])
  }

  ghost predicate NeverEmpty(plain: (Path, Text) -> Text) { forall p, t :: plain(p, t) != [] }

  /** Then extraction yields exactly the replacing texts, one for each matching leaf of
      each document, whatever order each document is walked in. */
  lemma {:induction false} SequenceIsExact(orders: seq<seq<Path>>, before: Input, after: Input, pred: Text -> bool,
                                           plains: seq<(Path, Text) -> Text>)
    requires AreFirstOrders(orders, before, pred) && |orders| <= Shared(before, after)
    requires OnlyLeavesReplaced(before, after, pred, plains)
    ensures SecretsOf(orders, after.docs) == PlainsOf(orders, before, pred, plains)
  {
    if orders != [] {
      var last := |orders| - 1;
      SequenceIsExact(orders[..last], before, after, pred, plains);
      OrderMatches(orders[last], before.docs[last], pred);
      assert NeverEmpty(plains[last]);
      ExtractionIsExact(orders[last], before.docs[last], pred, plains[last]);
      assert SecretsAt(orders[last], after.docs[last]) == PlainsAt(orders[last], before.docs[last], pred, plains[last]);
    }
  }

  // ---------------------------------------------------------------- skipping

  /** hasValsRefs: the first error ends the search without a finding. */
  method HasRefs(input: Input, pred: Text -> bool) returns (r: bool)
    ensures r <==> exists d :: 0 <= d < |input.docs| && ContainsRef(input.docs[d], pred)
  {
    var dec := new Decoder(input);
    while true
      invariant dec.input == input && dec.Valid() && fresh(dec)
      invariant forall d :: 0 <= d < dec.pos ==> !ContainsRef(input.docs[d], pred)
      decreases |input.docs| - dec.pos
    {
      var doc := dec.Decode();
      if doc.Eof? { break; }
      if doc.DecodeError? { return false; }
      if doc.tree != Null && ContainsRef(doc.tree, pred) { return true; }
    }
    return false;
  }

  /** Evaluation is skipped exactly when no evaluated content could yield a secret. */
  lemma SkippedExactlyWhenNothingToFind(before: Input, pred: Text -> bool)
    requires forall t :: pred(t) ==> t != []
    ensures (exists d :: 0 <= d < |before.docs| && ContainsRef(before.docs[d], pred)) <==>
            exists after, orders :: AreOrders(orders, before, after, pred) && SecretsOf(orders, after.docs) != []
  {
    if d :| 0 <= d < |before.docs| && ContainsRef(before.docs[d], pred) {
      var p := Witness(before.docs[d], pred);
      var orders := SomeOrders(before, pred, |before.docs|);
      assert AreOrders(orders, before, before, pred);
      var v := LeafText(before.docs[d], pred, p);
      assert Leads(before, before, pred, v, d, p);
      ExtractedExactly(orders, before, before, pred, v);
    }
    forall after, orders | AreOrders(orders, before, after, pred) && SecretsOf(orders, after.docs) != []
      ensures exists d :: 0 <= d < |before.docs| && ContainsRef(before.docs[d], pred)
    {
      var v := SecretsOf(orders, after.docs)[0];
      ExtractedExactly(orders, before, after, pred, v);
      assert v in SecretsOf(orders, after.docs);
      var d, p :| Leads(before, after, pred, v, d, p);
      MatchIsContained(before.docs[d], pred, p);
    }
  }

  lemma {:induction false} SomeOrders(before: Input, pred: Text -> bool, n: nat) returns (orders: seq<seq<Path>>)
    requires n <= |before.docs|
    ensures |orders| == n && forall d :: 0 <= d < n ==> Enumerates(orders[d], before.docs[d], pred)
  {
    if n == 0 {
      orders := [];
    } else {
      orders := SomeOrders(before, pred, n - 1);
      var last := SomeOrder(before.docs[n - 1], pred);
      orders := orders + [last];
    }
  }

  lemma {:induction false} SomeOrder(data: Tree, pred: Text -> bool) returns (paths: seq<Path>)
    ensures Enumerates(paths, data, pred)
    decreases data
  {
    paths := [];
    var done: iset<Segment> := iset{};
    match data {
      case Mapping(m) =>
        var keys := m.Keys;
        while keys != {}
          invariant keys <= m.Keys
          invariant forall s :: s in done <==> s.Key? && s.key in m.Keys - keys
          invariant YamlUtils.EnumeratesSome(paths, data, pred, done)
          decreases keys
        {
          var key :| key in keys;
          var below := SomeOrder(m[key], pred);
          YamlUtils.EnumeratesMore(paths, data, pred, done, Key(key), below);
          paths, done, keys := paths + YamlUtils.Under(Key(key), below), done + iset{Key(key)}, keys - {key};
        }
      case Sequence(items) =>
        for i := 0 to |items|
          invariant forall s :: s in done <==> s.Index? && 0 <= s.at < i
          invariant YamlUtils.EnumeratesSome(paths, data, pred, done)
        {
          var below := SomeOrder(items[i], pred);
          YamlUtils.EnumeratesMore(paths, data, pred, done, Index(i), below);
          paths, done := paths + YamlUtils.Under(Index(i), below), done + iset{Index(i)};
        }
      case Str(text) =>
        if pred(text) { paths := [[]]; }
      case _ =>
    }
  }
}
