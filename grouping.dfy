/** Ruby's `Enumerable#group_by` and `Hash#merge` on string-keyed hashes, whose entries
    keep the order in which their keys were first inserted. A hash of groups is a sequence
    of key/items pairs with distinct keys. */
module Grouping {
  import opened Common

  datatype Group<T> = Group(key: string, items: seq<T>)

  /** No key occurs twice. */
  predicate DistinctKeys<T>(groups: seq<Group<T>>) {
    forall i, j :: 0 <= i < j < |groups| ==> groups[i].key != groups[j].key
  }

  /** Where the entry for `k` sits, if there is one. */
  function KeyIndex<T>(groups: seq<Group<T>>, k: string): (r: Option<nat>)
    ensures r.Some? ==> r.value < |groups| && groups[r.value].key == k
    ensures r.None? ==> forall j :: 0 <= j < |groups| ==> groups[j].key != k
  {
    if groups == [] then None
    else if groups[|groups| - 1].key == k then Some(|groups| - 1)
    else KeyIndex(groups[..|groups| - 1], k)
  }

  /** One step of `group_by`: `x` joins the end of the group of `k`, or opens a new group
      at the end of the hash. */
  function Insert<T>(groups: seq<Group<T>>, k: string, x: T): (r: seq<Group<T>>)
    requires DistinctKeys(groups)
    ensures DistinctKeys(r)
  {
    match KeyIndex(groups, k)
    case None => groups + [Group(k, [x])]
    case Some(j) => groups[j := Group(k, groups[j].items + [x])]
  }

  /** `xs.group_by(&key)`. */
  function GroupBy<T>(xs: seq<T>, key: T -> string): (r: seq<Group<T>>)
    ensures DistinctKeys(r)
  {
    if xs == [] then []
    else Insert(GroupBy(xs[..|xs| - 1], key), key(xs[|xs| - 1]), xs[|xs| - 1])
  }

  /** The elements whose key is `k`, in their original order. */
  function WithKey<T>(xs: seq<T>, key: T -> string, k: string): (r: seq<T>)
    ensures |r| <= |xs|
    ensures forall i :: 0 <= i < |r| ==> key(r[i]) == k
  {
    if xs == [] then []
    else WithKey(xs[..|xs| - 1], key, k) + (if key(xs[|xs| - 1]) == k then [xs[|xs| - 1]] else [])
  }

  /** `group_by` loses nothing and invents nothing: a key has a group exactly when some
      element has that key, and that group holds exactly those elements, in order. */
  lemma {:induction false} GroupByMembers<T>(xs: seq<T>, key: T -> string)
    ensures forall k :: KeyIndex(GroupBy(xs, key), k).Some? <==> WithKey(xs, key, k) != []
    ensures forall j :: 0 <= j < |GroupBy(xs, key)| ==>
              GroupBy(xs, key)[j].items == WithKey(xs, key, GroupBy(xs, key)[j].key)
    decreases |xs|
  {
    if xs != [] {
      var xs' := xs[..|xs| - 1];
      var x := xs[|xs| - 1];
      var g' := GroupBy(xs', key);
      var g := GroupBy(xs, key);
      GroupByMembers(xs', key);
      assert g == Insert(g', key(x), x);
      forall k ensures KeyIndex(g, k).Some? <==> WithKey(xs, key, k) != [] {
        InsertIndex(g', key(x), x, k);
      }
      forall j | 0 <= j < |g| ensures g[j].items == WithKey(xs, key, g[j].key) {
        InsertItems(g', key(x), x, j);
      }
    }
  }

  /** After an insertion, `k` has an entry when it had one or when it is the inserted key. */
  lemma InsertIndex<T>(groups: seq<Group<T>>, k: string, x: T, c: string)
    requires DistinctKeys(groups)
    ensures KeyIndex(Insert(groups, k, x), c).Some? <==> KeyIndex(groups, c).Some? || c == k
  {
    var r := Insert(groups, k, x);
    if KeyIndex(r, c).Some? {
      var j := KeyIndex(r, c).value;
      if j < |groups| && c != k {
        assert groups[j].key == c;
      }
    }
    if c == k {
      match KeyIndex(groups, k)
      case None => KeyIndexFound(r, |groups|, c);
      case Some(j) => KeyIndexFound(r, j, c);
    } else if KeyIndex(groups, c).Some? {
      KeyIndexFound(r, KeyIndex(groups, c).value, c);
    }
  }

  /** A key held at some position has an entry. */
  lemma KeyIndexFound<T>(groups: seq<Group<T>>, j: nat, k: string)
    requires j < |groups| && groups[j].key == k
    ensures KeyIndex(groups, k).Some?
  {
  }

  /** After an insertion, each group holds what it held plus the new element when the key
      is its own. */
  lemma InsertItems<T>(groups: seq<Group<T>>, k: string, x: T, j: nat)
    requires DistinctKeys(groups)
    requires j < |Insert(groups, k, x)|
    ensures j < |groups| ==> Insert(groups, k, x)[j].key == groups[j].key
    ensures j < |groups| ==>
              Insert(groups, k, x)[j].items == groups[j].items + (if groups[j].key == k then [x] else [])
    ensures j == |groups| ==> KeyIndex(groups, k).None? && Insert(groups, k, x)[j] == Group(k, [x])
  {
  }

  /** Every group's key is the key of some element, so what holds of every element's key
      holds of every group's key. */
  lemma {:induction false} GroupByKeys<T>(xs: seq<T>, key: T -> string, p: string -> bool)
    requires forall i :: 0 <= i < |xs| ==> p(key(xs[i]))
    ensures forall j :: 0 <= j < |GroupBy(xs, key)| ==> p(GroupBy(xs, key)[j].key)
    decreases |xs|
  {
    if xs != [] {
      var xs' := xs[..|xs| - 1];
      GroupByKeys(xs', key, p);
      var g' := GroupBy(xs', key);
      var x := xs[|xs| - 1];
      forall j | 0 <= j < |GroupBy(xs, key)| ensures p(GroupBy(xs, key)[j].key) {
        InsertItems(g', key(x), x, j);
      }
    }
  }

  /** The position of the first element whose key is `k`, or `|xs|` when there is none. */
  function FirstIndex<T>(xs: seq<T>, key: T -> string, k: string): (n: nat)
    ensures n <= |xs|
    decreases |xs|
  {
    if xs == [] then 0
    else
      var n := FirstIndex(xs[..|xs| - 1], key, k);
      if n < |xs| - 1 then n else if key(xs[|xs| - 1]) == k then |xs| - 1 else |xs|
  }

  /** `FirstIndex` is the first position holding the key: the key is there, and nowhere
      before it. */
  lemma {:induction false} FirstIndexSpec<T>(xs: seq<T>, key: T -> string, k: string)
    ensures FirstIndex(xs, key, k) < |xs| ==> key(xs[FirstIndex(xs, key, k)]) == k
    ensures forall b :: 0 <= b < |xs| && key(xs[b]) == k ==> FirstIndex(xs, key, k) <= b
    decreases |xs|
  {
    if xs != [] {
      var xs' := xs[..|xs| - 1];
      FirstIndexSpec(xs', key, k);
      forall b | 0 <= b < |xs| && key(xs[b]) == k ensures FirstIndex(xs, key, k) <= b {
        if b < |xs'| {
          assert xs'[b] == xs[b];
        }
      }
      if FirstIndex(xs', key, k) < |xs'| {
        assert xs'[FirstIndex(xs', key, k)] == xs[FirstIndex(xs', key, k)];
      }
    }
  }

  /** The keys of `groups` first occur in `xs` in the order of the groups, and a key
      without a group does not occur in `xs`. */
  ghost predicate FirstSeenOrder<T>(groups: seq<Group<T>>, xs: seq<T>, key: T -> string) {
    (forall j :: 0 <= j < |groups| ==> FirstIndex(xs, key, groups[j].key) < |xs|) &&
    (forall i, j :: 0 <= i < j < |groups| ==> FirstIndex(xs, key, groups[i].key) < FirstIndex(xs, key, groups[j].key)) &&
    (forall k :: KeyIndex(groups, k).None? ==> FirstIndex(xs, key, k) == |xs|)
  }

  /** `group_by` lists the groups in the order in which their keys first occur, and every
      key without a group occurs nowhere. */
  lemma {:induction false} GroupByOrder<T>(xs: seq<T>, key: T -> string)
    ensures FirstSeenOrder(GroupBy(xs, key), xs, key)
    decreases |xs|
  {
    if xs != [] {
      var xs' := xs[..|xs| - 1];
      GroupByOrder(xs', key);
      InsertOrder(GroupBy(xs', key), xs', xs, key);
    }
  }

  /** One step of `group_by` keeps the groups in the order of first occurrence. */
  lemma InsertOrder<T>(g': seq<Group<T>>, xs': seq<T>, xs: seq<T>, key: T -> string)
    requires xs != [] && xs' == xs[..|xs| - 1]
    requires DistinctKeys(g') && FirstSeenOrder(g', xs', key)
    ensures FirstSeenOrder(Insert(g', key(xs[|xs| - 1]), xs[|xs| - 1]), xs, key)
  {
    var x := xs[|xs| - 1];
    match KeyIndex(g', key(x))
    case None =>
      NewGroupOrder(g', xs', xs, key);
    case Some(j) =>
      GrownGroupOrder(g', xs', xs, key, j);
  }

  /** A key seen before keeps its first position when an element is added at the end. */
  lemma FirstIndexKept<T>(xs': seq<T>, xs: seq<T>, key: T -> string, k: string)
    requires xs != [] && xs' == xs[..|xs| - 1]
    ensures FirstIndex(xs', key, k) < |xs'| ==> FirstIndex(xs, key, k) == FirstIndex(xs', key, k)
    ensures FirstIndex(xs', key, k) == |xs'| ==>
              FirstIndex(xs, key, k) == if key(xs[|xs| - 1]) == k then |xs'| else |xs|
  {
  }

  lemma NewGroupOrder<T>(g': seq<Group<T>>, xs': seq<T>, xs: seq<T>, key: T -> string)
    requires xs != [] && xs' == xs[..|xs| - 1]
    requires KeyIndex(g', key(xs[|xs| - 1])).None?
    requires FirstSeenOrder(g', xs', key)
    ensures FirstSeenOrder(g' + [Group(key(xs[|xs| - 1]), [xs[|xs| - 1]])], xs, key)
  {
    var x := xs[|xs| - 1];
    var g := g' + [Group(key(x), [x])];
    forall j | 0 <= j < |g|
      ensures FirstIndex(xs, key, g[j].key) == if j < |g'| then FirstIndex(xs', key, g'[j].key) else |xs'|
    {
      if j < |g'| {
        FirstIndexKept(xs', xs, key, g'[j].key);
      } else {
        FirstIndexKept(xs', xs, key, key(x));
      }
    }
    forall k | KeyIndex(g, k).None? ensures FirstIndex(xs, key, k) == |xs| {
      assert k != key(x) && KeyIndex(g', k).None? by {
        assert g[|g'|].key == key(x);
      }
      FirstIndexKept(xs', xs, key, k);
    }
  }

  lemma GrownGroupOrder<T>(g': seq<Group<T>>, xs': seq<T>, xs: seq<T>, key: T -> string, j0: nat)
    requires xs != [] && xs' == xs[..|xs| - 1]
    requires j0 < |g'| && g'[j0].key == key(xs[|xs| - 1])
    requires FirstSeenOrder(g', xs', key)
    ensures FirstSeenOrder(g'[j0 := Group(key(xs[|xs| - 1]), g'[j0].items + [xs[|xs| - 1]])], xs, key)
  {
    var x := xs[|xs| - 1];
    var g := g'[j0 := Group(key(x), g'[j0].items + [x])];
    forall j | 0 <= j < |g| ensures FirstIndex(xs, key, g[j].key) == FirstIndex(xs', key, g'[j].key) {
      assert g[j].key == g'[j].key;
      FirstIndexKept(xs', xs, key, g'[j].key);
    }
    forall k | KeyIndex(g, k).None? ensures FirstIndex(xs, key, k) == |xs| {
      assert k != key(x) by {
        assert g[j0].key == key(x);
      }
      assert KeyIndex(g', k).None?;
      FirstIndexKept(xs', xs, key, k);
    }
  }

  /** The weights of the elements, added up. */
  function SumOf<T>(xs: seq<T>, w: T -> int): int {
    if xs == [] then 0 else SumOf(xs[..|xs| - 1], w) + w(xs[|xs| - 1])
  }

  lemma {:induction false} SumOfAppend<T>(a: seq<T>, b: seq<T>, w: T -> int)
    ensures SumOf(a + b, w) == SumOf(a, w) + SumOf(b, w)
    decreases |b|
  {
    if b == [] {
      assert a + b == a;
    } else {
      var b' := b[..|b| - 1];
      assert (a + b)[..|a + b| - 1] == a + b';
      assert (a + b)[|a + b| - 1] == b[|b| - 1];
      SumOfAppend(a, b', w);
    }
  }

  /** Sequences of equal length whose elements weigh the same, position by position, weigh
      the same in total. */
  lemma {:induction false} SumOfPointwise<T, U>(xs: seq<T>, w: T -> int, ys: seq<U>, v: U -> int)
    requires |xs| == |ys|
    requires forall i :: 0 <= i < |xs| ==> w(xs[i]) == v(ys[i])
    ensures SumOf(xs, w) == SumOf(ys, v)
    decreases |xs|
  {
    if xs != [] {
      SumOfPointwise(xs[..|xs| - 1], w, ys[..|ys| - 1], v);
    }
  }

  /** A test and its negation split the total weight. */
  lemma {:induction false} SumOfSelect<T>(xs: seq<T>, f: T -> bool, g: T -> bool, w: T -> int)
    requires forall i :: 0 <= i < |xs| ==> g(xs[i]) == !f(xs[i])
    ensures SumOf(Select(xs, f), w) + SumOf(Select(xs, g), w) == SumOf(xs, w)
    decreases |xs|
  {
    if xs != [] {
      var xs' := xs[..|xs| - 1];
      var x := xs[|xs| - 1];
      SumOfSelect(xs', f, g, w);
      SumOfAppend(Select(xs', f), if f(x) then [x] else [], w);
      SumOfAppend(Select(xs', g), if g(x) then [x] else [], w);
      assert SumOf([x], w) == w(x) by { assert [x][..0] == []; }
    }
  }

  /** The weights of all grouped elements, added up group by group. */
  function Total<T>(groups: seq<Group<T>>, w: T -> int): int {
    if groups == [] then 0 else Total(groups[..|groups| - 1], w) + SumOf(groups[|groups| - 1].items, w)
  }

  /** Adding an element to one group adds its weight to the total. */
  lemma {:induction false} TotalGrow<T>(groups: seq<Group<T>>, j: nat, k: string, x: T, w: T -> int)
    requires j < |groups|
    ensures Total(groups[j := Group(k, groups[j].items + [x])], w) == Total(groups, w) + w(x)
    decreases |groups|
  {
    var n := |groups| - 1;
    var r := groups[j := Group(k, groups[j].items + [x])];
    assert SumOf(groups[j].items + [x], w) == SumOf(groups[j].items, w) + w(x) by {
      assert (groups[j].items + [x])[..|groups[j].items|] == groups[j].items;
    }
    if j == n {
      assert r[..n] == groups[..n];
    } else {
      assert r[..n] == groups[..n][j := Group(k, groups[j].items + [x])];
      TotalGrow(groups[..n], j, k, x, w);
    }
  }

  /** `group_by` conserves the total weight. */
  lemma {:induction false} GroupByTotal<T>(xs: seq<T>, key: T -> string, w: T -> int)
    ensures Total(GroupBy(xs, key), w) == SumOf(xs, w)
    decreases |xs|
  {
    if xs != [] {
      var xs' := xs[..|xs| - 1];
      var x := xs[|xs| - 1];
      var g' := GroupBy(xs', key);
      GroupByTotal(xs', key, w);
      match KeyIndex(g', key(x))
      case None =>
        assert (g' + [Group(key(x), [x])])[..|g'|] == g';
        assert SumOf([x], w) == w(x) by { assert [x][..0] == []; }
      case Some(j) =>
        TotalGrow(g', j, key(x), x, w);
    }
  }

  /** Weights given per group add up to the total when each is its group's weight. */
  lemma {:induction false} TotalPointwise<T, U>(groups: seq<Group<T>>, w: T -> int, ys: seq<U>, v: U -> int)
    requires |groups| == |ys|
    requires forall i :: 0 <= i < |ys| ==> v(ys[i]) == SumOf(groups[i].items, w)
    ensures SumOf(ys, v) == Total(groups, w)
    decreases |ys|
  {
    if ys != [] {
      TotalPointwise(groups[..|groups| - 1], w, ys[..|ys| - 1], v);
    }
  }

  /** `h[g.key] = g.items`: an existing entry keeps its place and takes the new items, a
      new key goes last. */
  function Put<T>(groups: seq<Group<T>>, g: Group<T>): seq<Group<T>> {
    match KeyIndex(groups, g.key)
    case None => groups + [g]
    case Some(j) => groups[j := g]
  }

  /** `a.merge(b)`: the entries of `b` stored into `a` one after the other. */
  function Merge<T>(a: seq<Group<T>>, b: seq<Group<T>>): seq<Group<T>> {
    if b == [] then a else Put(Merge(a, b[..|b| - 1]), b[|b| - 1])
  }

  /** Merging hashes with no key in common lays them end to end. */
  lemma {:induction false} MergeDisjoint<T>(a: seq<Group<T>>, b: seq<Group<T>>)
    requires DistinctKeys(b)
    requires forall i, j :: 0 <= i < |a| && 0 <= j < |b| ==> a[i].key != b[j].key
    ensures Merge(a, b) == a + b
    decreases |b|
  {
    if b == [] {
      assert a + b == a;
    } else {
      var b' := b[..|b| - 1];
      var g := b[|b| - 1];
      MergeDisjoint(a, b');
      assert a + b == (a + b') + [g];
      var m := a + b';
      assert KeyIndex(m, g.key).None? by {
        forall j | 0 <= j < |m| ensures m[j].key != g.key {
          if j >= |a| {
            assert m[j] == b[j - |a|];
          }
        }
      }
    }
  }
}
