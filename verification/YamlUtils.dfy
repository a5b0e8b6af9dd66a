/** Decoded YAML trees and paths into them. */
module YamlTree {
  import opened Common

  /** Scalar stands for every value that is neither a string, a map with string keys
      nor a list. */
  datatype Tree = Null | Scalar | Str(text: Text) | Mapping(entries: map<Text, Tree>) | Sequence(items: seq<Tree>)

  /** Foreign is a path element that is neither a string nor an int. */
  datatype Segment = Key(key: Text) | Index(at: int) | Foreign

  type Path = seq<Segment>

  datatype Lookup = Found(value: Tree) | Missing | Panicked

  function Resolve(data: Tree, path: Path): Lookup
    decreases |path|
  {
    if path == [] then Found(data)
    else
      var next := Child(data, path[0]);
      if next.Found? then Resolve(next.value, path[1..]) else next
  }

  /** One step down. A negative index passes the length check and panics. */
  function Child(data: Tree, segment: Segment): Lookup {
    match segment
    case Key(k) => if data.Mapping? && k in data.entries then Found(data.entries[k]) else Missing
    case Index(i) =>
      if !data.Sequence? || i >= |data.items| then Missing
      else if i < 0 then Panicked
      else Found(data.items[i])
    case Foreign => Missing
  }

  /** path leads to a string that satisfies pred. */
  predicate Matches(data: Tree, pred: Text -> bool, path: Path) {
    var r := Resolve(data, path);
    r.Found? && r.value.Str? && pred(r.value.text)
  }

  /** paths lists the matching paths, each once, in some order. */
  ghost predicate Enumerates(paths: seq<Path>, data: Tree, pred: Text -> bool) {
    NoDuplicates(paths) && forall p :: p in paths <==> Matches(data, pred, p)
  }

  lemma {:induction false} ResolveConcat(data: Tree, a: Path, b: Path)
    ensures var r := Resolve(data, a);
      Resolve(data, a + b) == if r.Found? then Resolve(r.value, b) else r
    decreases |a|
  {
    if a == [] {
      assert a + b == b;
    } else {
      assert (a + b)[1..] == a[1..] + b;
      var next := Child(data, a[0]);
      if next.Found? { ResolveConcat(next.value, a[1..], b); }
    }
  }

  /** No matching path is a proper prefix of another. */
  lemma MatchesAreApart(data: Tree, pred: Text -> bool, p: Path, q: Path)
    requires Matches(data, pred, p) && Matches(data, pred, q) && p <= q
    ensures p == q
  {
    assert q == p + q[|p|..];
    ResolveConcat(data, p, q[|p|..]);
  }

  /** A matching path has no negative index, so it never panics, in any tree. */
  lemma {:induction false} MatchingPathsAreSafe(data: Tree, pred: Text -> bool, p: Path, other: Tree)
    requires Matches(data, pred, p)
    ensures Resolve(other, p) != Panicked
    decreases |p|
  {
    if p != [] && Child(other, p[0]).Found? {
      MatchingPathsAreSafe(Child(data, p[0]).value, pred, p[1..], Child(other, p[0]).value);
    }
  }

  /** containsValsRef: pure recursion over the tree. */
  predicate ContainsRef(data: Tree, pred: Text -> bool) {
    match data
    case Mapping(m) => exists k :: k in m && ContainsRef(m[k], pred)
    case Sequence(items) => exists i :: 0 <= i < |items| && ContainsRef(items[i], pred)
    case Str(text) => pred(text)
    case _ => false
  }

  /** It is true exactly when there is a path to collect. */
  lemma {:induction false} ContainsRefIffCollectable(data: Tree, pred: Text -> bool)
    ensures ContainsRef(data, pred) <==> exists p :: Matches(data, pred, p)
  {
    if ContainsRef(data, pred) {
      var p := Witness(data, pred);
    }
    forall p | Matches(data, pred, p) ensures ContainsRef(data, pred) {
      MatchIsContained(data, pred, p);
    }
  }

  lemma {:induction false} Witness(data: Tree, pred: Text -> bool) returns (p: Path)
    requires ContainsRef(data, pred)
    ensures Matches(data, pred, p)
  {
    match data {
      case Mapping(m) =>
        var k :| k in m && ContainsRef(m[k], pred);
        var q := Witness(m[k], pred);
        p := [Key(k)] + q;
        assert p[1..] == q;
      case Sequence(items) =>
        var i :| 0 <= i < |items| && ContainsRef(items[i], pred);
        var q := Witness(items[i], pred);
        p := [Index(i)] + q;
        assert p[1..] == q;
      case Str(_) => p := [];
    }
  }

  lemma {:induction false} MatchIsContained(data: Tree, pred: Text -> bool, p: Path)
    requires Matches(data, pred, p)
    ensures ContainsRef(data, pred)
    decreases |p|
  {
    if p != [] {
      MatchIsContained(Child(data, p[0]).value, pred, p[1..]);
    }
  }
}

/** The collector and the resolver as the code has them: loops, and one path buffer
    shared and overwritten by all siblings. */
module YamlUtils {
  import opened Common
  import opened YamlTree

  method ResolvePath(data: Tree, path: Path) returns (r: Lookup)
    ensures r == Resolve(data, path)
  {
    var current := data;
    for i := 0 to |path|
      invariant Resolve(data, path) == Resolve(current, path[i..])
    {
      assert path[i..][1..] == path[i + 1..];
      match path[i] {
        case Key(key) =>
          if !current.Mapping? { return Missing; }
          if key !in current.entries { return Missing; }
          current := current.entries[key];
        case Index(at) =>
          if !current.Sequence? || at >= |current.items| { return Missing; }
          if at < 0 { return Panicked; }
          current := current.items[at];
        case Foreign => return Missing;
      }
    }
    return Found(current);
  }

  /** A Go slice: the first len elements of an array whose length is the capacity. */
  datatype Slice = Slice(arr: array<Segment>, len: nat)

  class PathList {
    var items: seq<array<Segment>>

    constructor ()
      ensures items == []
    {
      items := [];
    }
  }

  /** append: in place when there is room, otherwise into a larger array. */
  method Append(s: Slice, x: Segment) returns (r: Slice)
    requires s.len <= s.arr.Length
    modifies s.arr
    ensures r.len == s.len + 1 <= r.arr.Length
    ensures r.arr[..r.len] == old(s.arr[..s.len]) + [x]
    ensures s.arr[..s.len] == old(s.arr[..s.len])
    ensures r.arr == s.arr || fresh(r.arr)
  {
    if s.len < s.arr.Length {
      s.arr[s.len] := x;
      r := Slice(s.arr, s.len + 1);
    } else {
      var capacity: nat :| s.len < capacity;
      var bigger := new Segment[capacity](_ => x);
      forall k | 0 <= k < s.len { bigger[k] := s.arr[k]; }
      r := Slice(bigger, s.len + 1);
    }
  }

  /** From index first on, the list holds prefix + found[k], each in an array of its own. */
  ghost predicate Stored(items: seq<array<Segment>>, first: nat, prefix: Path, found: seq<Path>)
    reads items
  {
    |items| == first + |found| &&
    forall k :: 0 <= k < |found| ==> items[first + k][..] == prefix + found[k]
  }

  function Under(segment: Segment, paths: seq<Path>): (r: seq<Path>)
    ensures |r| == |paths| && forall k :: 0 <= k < |r| ==> r[k] == [segment] + paths[k]
  {
    seq(|paths|, k requires 0 <= k < |paths| => [segment] + paths[k])
  }

  /** The matching paths whose first step is one of those in done. */
  ghost predicate EnumeratesSome(paths: seq<Path>, data: Tree, pred: Text -> bool, done: iset<Segment>) {
    NoDuplicates(paths) &&
    forall p :: p in paths <==> p != [] && p[0] in done && Matches(data, pred, p)
  }

  lemma EnumeratesMore(paths: seq<Path>, data: Tree, pred: Text -> bool, done: iset<Segment>,
                       segment: Segment, below: seq<Path>)
    requires EnumeratesSome(paths, data, pred, done) && segment !in done
    requires Child(data, segment).Found? && Enumerates(below, Child(data, segment).value, pred)
    ensures EnumeratesSome(paths + Under(segment, below), data, pred, done + iset{segment})
  {
    var added, all := Under(segment, below), paths + Under(segment, below);
    forall p ensures p in added <==> p != [] && p[0] == segment && Matches(data, pred, p) {
      if p in added {
        var k :| 0 <= k < |added| && added[k] == p;
        assert p[1..] == below[k];
        assert below[k] in below;
      }
      if p != [] && p[0] == segment && Matches(data, pred, p) {
        assert p[1..] in below;
        var k :| 0 <= k < |below| && below[k] == p[1..];
        assert added[k] == p;
      }
    }
    forall i, j | 0 <= i < j < |added| ensures added[i] != added[j] {
      assert added[i][1..] == below[i] && added[j][1..] == below[j];
    }
    forall i, j | 0 <= i < j < |all| ensures all[i] != all[j] {
      if i < |paths| <= j {
        assert all[i] in paths && all[j] in added;
      }
    }
  }

  lemma StoredMore(items: seq<array<Segment>>, first: nat, prefix: Path, found: seq<Path>, more: seq<Path>)
    requires first + |found| <= |items| && Stored(items[..first + |found|], first, prefix, found)
    requires Stored(items, first + |found|, prefix, more)
    ensures Stored(items, first, prefix, found + more)
  {
    forall k | 0 <= k < |found + more| ensures items[first + k][..] == prefix + (found + more)[k] {
      if k < |found| {
        assert items[..first + |found|][first + k] == items[first + k];
      }
    }
  }

  ghost predicate Usable(path: Slice, paths: PathList)
    reads paths
  {
    path.len <= path.arr.Length && path.arr !in paths.items
  }

  /** The call has added found (under path) to the list, in fresh arrays; it has left
      the earlier entries and the buffer up to path as they were. */
  twostate predicate Recorded(path: Slice, paths: PathList, found: seq<Path>)
    requires path.len <= path.arr.Length
    reads path.arr, paths, paths.items
  {
    && path.arr[..path.len] == old(path.arr[..path.len])
    && old(paths.items) <= paths.items
    && (forall k :: |old(paths.items)| <= k < |paths.items| ==> fresh(paths.items[k]))
    && Stored(paths.items, |old(paths.items)|, path.arr[..path.len], found)
  }

  /** Records the path of every string leaf that satisfies pred: exactly the paths the
      resolver resolves to such a string, each once. */
  method CollectPaths(data: Tree, path: Slice, paths: PathList, pred: Text -> bool) returns (ghost found: seq<Path>)
    requires Usable(path, paths)
    modifies path.arr, paths
    ensures Recorded(path, paths, found) && Enumerates(found, data, pred)
    decreases data, 2
  {
    found := [];
    match data {
      case Mapping(_) => found := CollectEntries(data, path, paths, pred);
      case Sequence(_) => found := CollectItems(data, path, paths, pred);
      case Str(text) =>
        if pred(text) {
          var copy := new Segment[path.len](
            k requires 0 <= k < path.len <= path.arr.Length reads path.arr => path.arr[k]);
          assert copy[..] == path.arr[..path.len] + [];
          paths.items := paths.items + [copy];
          found := [[]];
        }
      case Null =>
      case Scalar =>
    }
  }

  method CollectEntries(data: Tree, path: Slice, paths: PathList, pred: Text -> bool) returns (ghost found: seq<Path>)
    requires data.Mapping? && Usable(path, paths)
    modifies path.arr, paths
    ensures Recorded(path, paths, found) && Enumerates(found, data, pred)
    decreases data, 1
  {
    found := [];
    var keys := data.entries.Keys;
    ghost var done: iset<Segment> := iset{};
    while keys != {}
      invariant keys <= data.entries.Keys
      invariant forall s :: s in done <==> s.Key? && s.key in data.entries.Keys - keys
      invariant Usable(path, paths) && Recorded(path, paths, found)
      invariant EnumeratesSome(found, data, pred, done)
      decreases keys
    {
      var key :| key in keys;
      ghost var before := paths.items;
      ghost var below := Visit(data.entries[key], path, Key(key), paths, pred);
      EnumeratesMore(found, data, pred, done, Key(key), below);
      assert paths.items[..|before|] == before;
      StoredMore(paths.items, |old(paths.items)|, path.arr[..path.len], found, Under(Key(key), below));
      found := found + Under(Key(key), below);
      done := done + iset{Key(key)};
      keys := keys - {key};
    }
  }

  method CollectItems(data: Tree, path: Slice, paths: PathList, pred: Text -> bool) returns (ghost found: seq<Path>)
    requires data.Sequence? && Usable(path, paths)
    modifies path.arr, paths
    ensures Recorded(path, paths, found) && Enumerates(found, data, pred)
    decreases data, 1
  {
    found := [];
    ghost var done: iset<Segment> := iset{};
    for i := 0 to |data.items|
      invariant forall s :: s in done <==> s.Index? && 0 <= s.at < i
      invariant Usable(path, paths) && Recorded(path, paths, found)
      invariant EnumeratesSome(found, data, pred, done)
    {
      ghost var before := paths.items;
      ghost var below := Visit(data.items[i], path, Index(i), paths, pred);
      EnumeratesMore(found, data, pred, done, Index(i), below);
      assert paths.items[..|before|] == before;
      StoredMore(paths.items, |old(paths.items)|, path.arr[..path.len], found, Under(Index(i), below));
      found := found + Under(Index(i), below);
      done := done + iset{Index(i)};
    }
  }

  /** CollectPaths(val, append(path, segment), paths, pred): the buffer may be
      overwritten beyond path. */
  method Visit(val: Tree, path: Slice, segment: Segment, paths: PathList, pred: Text -> bool)
    returns (ghost below: seq<Path>)
    requires Usable(path, paths)
    modifies path.arr, paths
    ensures Recorded(path, paths, Under(segment, below)) && Usable(path, paths)
    ensures Enumerates(below, val, pred)
    decreases val, 3
  {
    ghost var prefix := path.arr[..path.len];
    var longer := Append(path, segment);
    below := CollectPaths(val, longer, paths, pred);
    forall k | 0 <= k < |below| {
      ConcatAssociates(prefix, [segment], below[k]);
    }
    assert path.arr == longer.arr ==> path.arr[..path.len] == longer.arr[..longer.len][..path.len];
  }
}
