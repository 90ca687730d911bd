/** The two LINQ building blocks the analytics rely on, as pure functions:
    `GroupBy(…).Count()` keeps keys in order of first appearance, and
    `OrderByDescending` is a stable sort. Ascending `OrderBy` is the same sort
    on the negated key. */
module Sorting {

  // ---- sums ----

  /** The sum of `f` over `s`. */
  function SumBy<T>(s: seq<T>, f: T -> int): int {
    if |s| == 0 then 0 else f(s[0]) + SumBy(s[1..], f)
  }

  lemma {:induction false} SumByConcat<T>(a: seq<T>, b: seq<T>, f: T -> int)
    ensures SumBy(a + b, f) == SumBy(a, f) + SumBy(b, f)
  {
    if |a| == 0 {
      assert a + b == b;
    } else {
      assert (a + b)[0] == a[0];
      assert (a + b)[1..] == a[1..] + b;
      SumByConcat(a[1..], b, f);
    }
  }

  lemma SumBySplit<T>(s: seq<T>, k: int, f: T -> int)
    requires 0 <= k <= |s|
    ensures SumBy(s, f) == SumBy(s[..k], f) + SumBy(s[k..], f)
  {
    assert s == s[..k] + s[k..];
    SumByConcat(s[..k], s[k..], f);
  }

  lemma {:induction false} SumByLowerBound<T>(s: seq<T>, f: T -> int)
    requires forall i :: 0 <= i < |s| ==> f(s[i]) >= 1
    ensures SumBy(s, f) >= |s|
  {
    if |s| > 0 {
      SumByLowerBound(s[1..], f);
    }
  }

  /** Reordering a sequence does not change a sum over it. */
  lemma {:induction false} SumByPermutation<T>(a: seq<T>, b: seq<T>, f: T -> int)
    requires multiset(a) == multiset(b)
    ensures SumBy(a, f) == SumBy(b, f)
    decreases |a|
  {
    if |a| == 0 {
      assert |b| == |multiset(b)| == 0;
    } else {
      assert a[0] in multiset(b);
      var j :| 0 <= j < |b| && b[j] == a[0];
      var b' := b[..j] + b[j + 1..];
      RemoveOne(a, b, j);
      SumByPermutation(a[1..], b', f);
      SumByRemove(b, j, f);
    }
  }

  lemma RemoveOne<T>(a: seq<T>, b: seq<T>, j: int)
    requires multiset(a) == multiset(b)
    requires |a| > 0 && 0 <= j < |b| && b[j] == a[0]
    ensures multiset(a[1..]) == multiset(b[..j] + b[j + 1..])
  {
    var m := multiset{a[0]};
    assert a == [a[0]] + a[1..];
    assert b == b[..j] + [b[j]] + b[j + 1..];
    var x, y := multiset(a[1..]), multiset(b[..j] + b[j + 1..]);
    assert m + x == m + y;
    forall e
      ensures x[e] == y[e]
    {
      assert (m + x)[e] == (m + y)[e];
    }
  }

  lemma SumByRemove<T>(b: seq<T>, j: int, f: T -> int)
    requires 0 <= j < |b|
    ensures SumBy(b, f) == f(b[j]) + SumBy(b[..j] + b[j + 1..], f)
  {
    var tail := [b[j]] + b[j + 1..];
    assert b == b[..j] + tail;
    SumByConcat(b[..j], tail, f);
    ConcatCons([b[j]], b[j + 1..]);
    SumByConcat(b[..j], b[j + 1..], f);
  }

  // ---- stable sort, largest key first ----

  predicate NonIncreasing<T>(s: seq<T>, key: T -> int) {
    forall i, j :: 0 <= i < j < |s| ==> key(s[i]) >= key(s[j])
  }

  /** How many leading elements of `s` have a key at least that of `x`. */
  function InsertPos<T>(x: T, s: seq<T>, key: T -> int): (k: nat)
    ensures k <= |s|
    ensures forall i :: 0 <= i < k ==> key(s[i]) >= key(x)
    ensures k < |s| ==> key(s[k]) < key(x)
  {
    if |s| == 0 || key(s[0]) < key(x) then 0 else 1 + InsertPos(x, s[1..], key)
  }

  /** Places `x` after every element whose key is at least its own and before
      the first one whose key is smaller. */
  function InsertByDesc<T>(x: T, s: seq<T>, key: T -> int): (r: seq<T>)
    requires NonIncreasing(s, key)
    ensures multiset(r) == multiset(s) + multiset{x}
    ensures NonIncreasing(r, key)
  {
    var k := InsertPos(x, s, key);
    InsertKeepsOrder(x, s, key, k);
    InsertAdds(x, s, k);
    s[..k] + [x] + s[k..]
  }

  lemma InsertKeepsOrder<T>(x: T, s: seq<T>, key: T -> int, k: nat)
    requires NonIncreasing(s, key) && k <= |s|
    requires forall i :: 0 <= i < k ==> key(s[i]) >= key(x)
    requires k < |s| ==> key(s[k]) < key(x)
    ensures NonIncreasing(s[..k] + [x] + s[k..], key)
  {
    var r := s[..k] + [x] + s[k..];
    assert forall i :: k <= i < |s| ==> key(s[i]) < key(x) by {
      assert k < |s| ==> key(s[k]) < key(x);
    }
    assert forall i :: 0 <= i < |r| ==> r[i] == if i < k then s[i] else if i == k then x else s[i - 1];
  }

  lemma InsertAdds<T>(x: T, s: seq<T>, k: nat)
    requires k <= |s|
    ensures multiset(s[..k] + [x] + s[k..]) == multiset(s) + multiset{x}
  {
    assert s == s[..k] + s[k..];
  }

  /** `OrderByDescending(key)`: a permutation of `s`, largest key first, with
      equal keys left in their original order. */
  function SortByDesc<T>(s: seq<T>, key: T -> int): (r: seq<T>)
    ensures multiset(r) == multiset(s)
    ensures |r| == |s|
    ensures NonIncreasing(r, key)
  {
    if |s| == 0 then []
    else
      var init := s[..|s| - 1];
      assert s == init + [s[|s| - 1]];
      var r := InsertByDesc(s[|s| - 1], SortByDesc(init, key), key);
      assert |r| == |multiset(r)|;
      r
  }

  /** The elements of `s` whose key is `v`, in order. */
  function WithKey<T>(s: seq<T>, key: T -> int, v: int): seq<T> {
    if |s| == 0 then [] else (if key(s[0]) == v then [s[0]] else []) + WithKey(s[1..], key, v)
  }

  lemma {:induction false} WithKeyAppend<T>(a: seq<T>, b: seq<T>, key: T -> int, v: int)
    ensures WithKey(a + b, key, v) == WithKey(a, key, v) + WithKey(b, key, v)
  {
    if |a| == 0 {
      assert a + b == b;
    } else {
      ConcatCons(a, b);
      WithKeyAppend(a[1..], b, key, v);
      ConcatAssoc(if key(a[0]) == v then [a[0]] else [], WithKey(a[1..], key, v), WithKey(b, key, v));
    }
  }

  lemma ConcatCons<T>(a: seq<T>, b: seq<T>)
    requires |a| > 0
    ensures |a + b| > 0 && (a + b)[0] == a[0] && (a + b)[1..] == a[1..] + b
  {
  }

  /** The head and tail of a concatenation with a non-empty front. */
  lemma TailAppend<T>(x: seq<T>, y: seq<T>)
    requires |x| > 0
    ensures (x + y)[0] == x[0] && (x + y)[1..] == x[1..] + y
  {
  }

  lemma ConcatAssoc<T>(x: seq<T>, y: seq<T>, z: seq<T>)
    ensures x + (y + z) == x + y + z
  {
  }

  lemma {:induction false} WithKeyNone<T>(s: seq<T>, key: T -> int, v: int)
    requires forall i :: 0 <= i < |s| ==> key(s[i]) < v
    ensures WithKey(s, key, v) == []
  {
    if |s| > 0 {
      WithKeyNone(s[1..], key, v);
    }
  }

  lemma InsertStable<T>(x: T, p: seq<T>, key: T -> int, v: int)
    requires NonIncreasing(p, key)
    ensures WithKey(InsertByDesc(x, p, key), key, v) == WithKey(p, key, v) + WithKey([x], key, v)
  {
    var k := InsertPos(x, p, key);
    assert InsertByDesc(x, p, key) == p[..k] + [x] + p[k..];
    InsertPosRest(x, p, key);
    InsertAt(p, k, x, key, v);
  }

  /** In a sorted list every key after the insertion point is below `x`'s. */
  lemma InsertPosRest<T>(x: T, p: seq<T>, key: T -> int)
    requires NonIncreasing(p, key)
    ensures forall i :: InsertPos(x, p, key) <= i < |p| ==> key(p[i]) < key(x)
  {
    var k := InsertPos(x, p, key);
    assert k < |p| ==> key(p[k]) < key(x);
  }

  /** Inserting `x` in front of elements with smaller keys puts it last
      among the elements with its key. */
  lemma InsertAt<T>(p: seq<T>, k: int, x: T, key: T -> int, v: int)
    requires 0 <= k <= |p|
    requires forall i :: k <= i < |p| ==> key(p[i]) < key(x)
    ensures WithKey(p[..k] + [x] + p[k..], key, v) == WithKey(p, key, v) + WithKey([x], key, v)
  {
    assert p == p[..k] + p[k..];
    assert forall i :: 0 <= i < |p[k..]| ==> key(p[k..][i]) < key(x);
    InsertParts(p[..k], x, p[k..], key, v);
  }

  lemma InsertParts<T>(a: seq<T>, x: T, b: seq<T>, key: T -> int, v: int)
    requires forall i :: 0 <= i < |b| ==> key(b[i]) < key(x)
    ensures WithKey(a + [x] + b, key, v) == WithKey(a + b, key, v) + WithKey([x], key, v)
  {
    WithKeyAppend(a + [x], b, key, v);
    WithKeyAppend(a, [x], key, v);
    WithKeyAppend(a, b, key, v);
    if key(x) == v {
      WithKeyNone(b, key, v);
    } else {
      assert WithKey([x], key, v) == [] by {
        assert [x][1..] == [];
      }
    }
    SwapEmpty(WithKey(a, key, v), WithKey([x], key, v), WithKey(b, key, v));
  }

  /** Two neighbours may swap places when one of them is empty. */
  lemma SwapEmpty<T>(a: seq<T>, x: seq<T>, b: seq<T>)
    requires x == [] || b == []
    ensures a + x + b == a + b + x
  {
    if x == [] {
      assert a + x == a && a + b + x == a + b;
    } else {
      assert a + x + b == a + x && a + b == a;
    }
  }

  /** The sort is stable: elements with equal keys keep their relative order. */
  lemma {:induction false} SortStable<T>(s: seq<T>, key: T -> int, v: int)
    ensures WithKey(SortByDesc(s, key), key, v) == WithKey(s, key, v)
  {
    if |s| > 0 {
      var init, x := s[..|s| - 1], s[|s| - 1];
      InitLast(s);
      SortStable(init, key, v);
      WithKeyAppend(init, [x], key, v);
      InsertStable(x, SortByDesc(init, key), key, v);
    }
  }

  /** Every element of a sorted sequence comes from the unsorted one. */
  lemma SortedElements<T>(s: seq<T>, key: T -> int, i: int)
    requires 0 <= i < |SortByDesc(s, key)|
    ensures SortByDesc(s, key)[i] in s
  {
    var r := SortByDesc(s, key);
    assert r[i] in multiset(r);
  }

  /** No two elements of `s` share a `name`. */
  ghost predicate DistinctBy<T, K>(s: seq<T>, name: T -> K) {
    forall i, j :: 0 <= i < j < |s| ==> name(s[i]) != name(s[j])
  }

  /** Elements distinct under `name` stay distinct after sorting. */
  lemma {:induction false} SortKeepsDistinct<T, K>(s: seq<T>, key: T -> int, name: T -> K)
    requires DistinctBy(s, name)
    ensures DistinctBy(SortByDesc(s, key), name)
  {
    if |s| > 0 {
      var init, x := s[..|s| - 1], s[|s| - 1];
      assert DistinctBy(init, name) by {
        assert forall i :: 0 <= i < |init| ==> init[i] == s[i];
      }
      SortKeepsDistinct(init, key, name);
      var p := SortByDesc(init, key);
      forall i | 0 <= i < |p|
        ensures name(p[i]) != name(x)
      {
        assert p[i] in multiset(init);
        var a :| 0 <= a < |init| && init[a] == p[i];
        assert init[a] == s[a];
      }
      InsertKeepsDistinct(x, p, InsertPos(x, p, key), name);
    }
  }

  lemma InsertKeepsDistinct<T, K>(x: T, p: seq<T>, k: int, name: T -> K)
    requires 0 <= k <= |p|
    requires DistinctBy(p, name)
    requires forall i :: 0 <= i < |p| ==> name(p[i]) != name(x)
    ensures DistinctBy(p[..k] + [x] + p[k..], name)
  {
    var r := p[..k] + [x] + p[k..];
    forall i, j | 0 <= i < j < |r|
      ensures name(r[i]) != name(r[j])
    {
      var a := if i < k then i else i - 1;
      var b := if j <= k then j else j - 1;
      if i == k {
        assert r[j] == p[b];
      } else if j == k {
        assert r[i] == p[a];
      } else {
        assert r[i] == p[a] && r[j] == p[j - 1 + (if j < k then 1 else 0)];
      }
    }
  }

  // ---- grouping with counts ----

  /** One group of a `GroupBy(…)`: its key and `Count()`. */
  datatype Entry<K> = Entry(key: K, count: nat)

  function Count<K>(e: Entry<K>): int { e.count }

  function Key<K>(e: Entry<K>): K { e.key }

  /** Position of the first occurrence of `k` in `xs`. */
  function FirstIndex<K(==)>(xs: seq<K>, k: K): (i: nat)
    requires k in xs
    ensures i < |xs| && xs[i] == k && k !in xs[..i]
  {
    if xs[0] == k then 0
    else
      var j := FirstIndex(xs[1..], k);
      assert xs[..j + 1] == [xs[0]] + xs[1..][..j];
      j + 1
  }

  ghost predicate DistinctKeys<K>(t: seq<Entry<K>>) {
    forall i, j :: 0 <= i < j < |t| ==> t[i].key != t[j].key
  }

  /** The keys of a tally, in its order. */
  function Keys<K>(t: seq<Entry<K>>): (ks: seq<K>)
    ensures |ks| == |t|
    ensures forall i :: 0 <= i < |t| ==> ks[i] == t[i].key
  {
    if |t| == 0 then [] else [t[0].key] + Keys(t[1..])
  }

  /** Adds one occurrence of `k`: bumps its entry or appends a new one. */
  function Bump<K(==)>(t: seq<Entry<K>>, k: K): (r: seq<Entry<K>>)
    requires DistinctKeys(t)
    ensures |r| == if k in Keys(t) then |t| else |t| + 1
    ensures forall i :: 0 <= i < |t| ==> r[i].key == t[i].key
    ensures |r| > |t| ==> r[|t|] == Entry(k, 1)
    ensures forall i :: 0 <= i < |t| ==> r[i].count == t[i].count + (if t[i].key == k then 1 else 0)
  {
    if |t| == 0 then [Entry(k, 1)]
    else if t[0].key == k then [Entry(k, t[0].count + 1)] + t[1..]
    else
      assert k in Keys(t) <==> k in Keys(t[1..]) by {
        assert Keys(t) == [t[0].key] + Keys(t[1..]);
      }
      [t[0]] + Bump(t[1..], k)
  }

  /** `xs.GroupBy(x => x).Select(g => (g.Key, g.Count()))`: every distinct
      value once, with its number of occurrences. The order is that of first
      appearance (`TallyFirstAppearance`). */
  function Tally<K(==)>(xs: seq<K>): (r: seq<Entry<K>>)
    ensures DistinctKeys(r)
    ensures forall i :: 0 <= i < |r| ==> r[i].count == multiset(xs)[r[i].key] && r[i].count >= 1
    ensures forall x :: x in xs ==> x in Keys(r)
  {
    if |xs| == 0 then []
    else
      var init, last := xs[..|xs| - 1], xs[|xs| - 1];
      InitLast(xs);
      var t := Tally(init);
      BumpCounts(init, last, t);
      BumpKeys(init, last, t);
      Bump(t, last)
  }

  lemma BumpCounts<K>(init: seq<K>, last: K, t: seq<Entry<K>>)
    requires DistinctKeys(t)
    requires forall i :: 0 <= i < |t| ==> t[i].count == multiset(init)[t[i].key] && t[i].count >= 1
    requires forall x :: x in init ==> x in Keys(t)
    ensures var r, xs := Bump(t, last), init + [last];
      forall i :: 0 <= i < |r| ==> r[i].count == multiset(xs)[r[i].key] && r[i].count >= 1
  {
    var r, xs := Bump(t, last), init + [last];
    MultisetSnoc(init, last);
    forall i | 0 <= i < |r|
      ensures r[i].count == multiset(xs)[r[i].key] && r[i].count >= 1
    {
      if i < |t| {
        assert r[i].key == t[i].key;
      } else {
        assert i == |t| && last !in Keys(t);
        assert multiset(init)[last] == 0;
        assert r[i] == Entry(last, 1);
      }
    }
  }

  /** Appending `last` adds one occurrence of it and changes no other count. */
  lemma MultisetSnoc<K>(init: seq<K>, last: K)
    ensures multiset(init + [last])[last] == multiset(init)[last] + 1
    ensures forall y :: y != last ==> multiset(init + [last])[y] == multiset(init)[y]
  {
    assert multiset(init + [last]) == multiset(init) + multiset{last};
  }

  lemma BumpKeys<K>(init: seq<K>, last: K, t: seq<Entry<K>>)
    requires DistinctKeys(t)
    requires forall x :: x in init ==> x in Keys(t)
    ensures var r := Bump(t, last);
      DistinctKeys(r) && forall x :: x in init + [last] ==> x in Keys(r)
  {
    var r := Bump(t, last);
    forall i, j | 0 <= i < j < |r|
      ensures r[i].key != r[j].key
    {
      if j == |t| {
        assert last !in Keys(t);
        assert Keys(t)[i] == t[i].key;
      }
    }
    forall x | x in init + [last]
      ensures x in Keys(r)
    {
      if x in Keys(t) {
        var i :| 0 <= i < |t| && Keys(t)[i] == x;
        assert Keys(r)[i] == x;
      } else {
        assert x in init || x == last;
        assert Keys(r)[|t|] == last;
      }
    }
  }

  /** The keys of `t` occur in `xs`, ordered by where they first occur. */
  ghost predicate FirstAppearanceOrder<K>(t: seq<Entry<K>>, xs: seq<K>) {
    && (forall i :: 0 <= i < |t| ==> t[i].key in xs)
    && (forall i, j :: 0 <= i < j < |t| ==> FirstIndex(xs, t[i].key) < FirstIndex(xs, t[j].key))
  }

  /** Tally keys come in the order of their first occurrence. */
  lemma {:induction false} TallyFirstAppearance<K>(xs: seq<K>)
    ensures FirstAppearanceOrder(Tally(xs), xs)
  {
    if |xs| > 0 {
      var init, last := xs[..|xs| - 1], xs[|xs| - 1];
      InitLast(xs);
      TallyFirstAppearance(init);
      var t := Tally(init);
      assert Tally(xs) == Bump(t, last);
      BumpFirstAppearance(t, init, last);
    }
  }

  lemma BumpFirstAppearance<K>(t: seq<Entry<K>>, init: seq<K>, last: K)
    requires DistinctKeys(t)
    requires FirstAppearanceOrder(t, init)
    requires forall x :: x in init ==> x in Keys(t)
    ensures FirstAppearanceOrder(Bump(t, last), init + [last])
  {
    var xs, r := init + [last], Bump(t, last);
    forall i | 0 <= i < |t|
      ensures t[i].key in xs && FirstIndex(xs, t[i].key) == FirstIndex(init, t[i].key) < |init|
    {
      FirstIndexPrefix(init, [last], t[i].key);
    }
    if |r| > |t| {
      assert r[|t|].key == last;
      assert FirstIndex(xs, last) == |init| by {
        assert last !in init;
        assert xs[..|xs| - 1] == init;
      }
    }
    assert last in xs by {
      assert xs[|init|] == last;
    }
    forall i | 0 <= i < |r| ensures r[i].key in xs {
      if i < |t| {
        assert r[i].key == t[i].key;
      } else {
        assert i == |t|;
      }
    }
    forall i, j | 0 <= i < j < |r|
      ensures FirstIndex(xs, r[i].key) < FirstIndex(xs, r[j].key)
    {
      assert r[i].key == t[i].key;
      if j < |t| {
        assert r[j].key == t[j].key;
      } else {
        assert j == |t|;
      }
    }
  }

  lemma FirstIndexPrefix<K>(a: seq<K>, b: seq<K>, k: K)
    requires k in a
    ensures FirstIndex(a + b, k) == FirstIndex(a, k)
  {
    var i := FirstIndex(a, k);
    var j := FirstIndex(a + b, k);
    assert forall m :: 0 <= m < i ==> a[m] != k by {
      assert forall m :: 0 <= m < i ==> a[..i][m] == a[m];
    }
    assert forall m :: 0 <= m < j ==> (a + b)[m] != k by {
      assert forall m :: 0 <= m < j ==> (a + b)[..j][m] == (a + b)[m];
    }
    assert (a + b)[i] == k;
  }

  /** The counts of a tally add up to the number of values tallied. */
  lemma {:induction false} TallySum<K>(xs: seq<K>)
    ensures SumBy(Tally(xs), Count) == |xs|
  {
    if |xs| > 0 {
      var init, last := xs[..|xs| - 1], xs[|xs| - 1];
      TallySum(init);
      BumpSum(Tally(init), last);
    }
  }

  lemma {:induction false} BumpSum<K>(t: seq<Entry<K>>, k: K)
    requires DistinctKeys(t)
    ensures SumBy(Bump(t, k), Count) == SumBy(t, Count) + 1
  {
    if |t| > 0 && t[0].key != k {
      BumpSum(t[1..], k);
      assert Bump(t, k)[1..] == Bump(t[1..], k);
    } else if |t| > 0 {
      assert Bump(t, k)[1..] == t[1..];
    }
  }

  // ---- group, count and rank ----

  /** `Select(f)`. */
  function Project<T, K>(s: seq<T>, f: T -> K): (r: seq<K>)
    ensures |r| == |s|
    ensures forall i :: 0 <= i < |s| ==> r[i] == f(s[i])
  {
    seq(|s|, i requires 0 <= i < |s| => f(s[i]))
  }

  /** Projecting a non-empty list: the image of its head, then of its tail. */
  lemma ProjectCons<T, K>(s: seq<T>, f: T -> K)
    requires |s| > 0
    ensures Project(s, f) == [f(s[0])] + Project(s[1..], f)
  {
  }

  lemma HeadTail<T>(s: seq<T>)
    requires |s| > 0
    ensures s == [s[0]] + s[1..]
  {
  }

  lemma InitLast<T>(s: seq<T>)
    requires |s| > 0
    ensures s == s[..|s| - 1] + [s[|s| - 1]]
  {
  }

  lemma {:induction false} SumByPointwise<A, B>(a: seq<A>, f: A -> int, b: seq<B>, g: B -> int)
    requires |a| == |b|
    requires forall i :: 0 <= i < |a| ==> f(a[i]) == g(b[i])
    ensures SumBy(a, f) == SumBy(b, g)
  {
    if |a| > 0 {
      SumByPointwise(a[1..], f, b[1..], g);
    }
  }

  /** `GroupBy(k).Select(mk).OrderByDescending(order)`: the groups of `xs`,
      each turned into a `T` that carries the group's key as `name` and its
      size as `count`, then ranked. */
  function Ranked<K(==), T>(xs: seq<K>, mk: Entry<K> -> T, order: T -> int): seq<T> {
    SortByDesc(Project(Tally(xs), mk), order)
  }

  /** One ranked row per distinct value, each with that value's number of
      occurrences, together accounting for every value exactly once. */
  lemma RankedSpec<K, T>(xs: seq<K>, mk: Entry<K> -> T, name: T -> K, count: T -> int, order: T -> int)
    requires forall e :: name(mk(e)) == e.key
    requires forall e :: count(mk(e)) == e.count
    ensures var b := Ranked(xs, mk, order);
            && DistinctBy(b, name)
            && (forall i :: 0 <= i < |b| ==> count(b[i]) == multiset(xs)[name(b[i])] >= 1)
            && (forall x :: x in xs ==> x in Project(b, name))
            && NonIncreasing(b, order)
            && SumBy(b, count) == |xs|
  {
    var t := Tally(xs);
    var u := Project(t, mk);
    RankedDistinct(t, u, mk, name, order);
    RankedCounts(xs, t, u, mk, name, count, order);
    RankedCovers(xs, t, u, mk, name, order);
    RankedSum(xs, t, u, mk, count, order);
  }

  lemma RankedDistinct<K, T>(t: seq<Entry<K>>, u: seq<T>, mk: Entry<K> -> T, name: T -> K, order: T -> int)
    requires DistinctKeys(t) && u == Project(t, mk)
    requires forall e :: name(mk(e)) == e.key
    ensures DistinctBy(SortByDesc(u, order), name)
  {
    assert DistinctBy(u, name) by {
      assert forall i :: 0 <= i < |u| ==> name(u[i]) == t[i].key;
    }
    SortKeepsDistinct(u, order, name);
  }

  lemma RankedSum<K, T>(xs: seq<K>, t: seq<Entry<K>>, u: seq<T>, mk: Entry<K> -> T,
                        count: T -> int, order: T -> int)
    requires t == Tally(xs) && u == Project(t, mk)
    requires forall e :: count(mk(e)) == e.count
    ensures SumBy(SortByDesc(u, order), count) == |xs|
  {
    SumByPermutation(SortByDesc(u, order), u, count);
    SumByPointwise(u, count, t, Count);
    TallySum(xs);
  }

  lemma RankedCounts<K, T>(xs: seq<K>, t: seq<Entry<K>>, u: seq<T>, mk: Entry<K> -> T,
                           name: T -> K, count: T -> int, order: T -> int)
    requires t == Tally(xs) && u == Project(t, mk)
    requires forall e :: name(mk(e)) == e.key
    requires forall e :: count(mk(e)) == e.count
    ensures var b := SortByDesc(u, order);
            forall i :: 0 <= i < |b| ==> count(b[i]) == multiset(xs)[name(b[i])] >= 1
  {
    var b := SortByDesc(u, order);
    forall i | 0 <= i < |b|
      ensures count(b[i]) == multiset(xs)[name(b[i])] >= 1
    {
      assert b[i] in multiset(u) by { assert b[i] in multiset(b); }
      var j :| 0 <= j < |u| && u[j] == b[i];
      assert u[j] == mk(t[j]);
    }
  }

  lemma RankedCovers<K, T>(xs: seq<K>, t: seq<Entry<K>>, u: seq<T>, mk: Entry<K> -> T,
                           name: T -> K, order: T -> int)
    requires t == Tally(xs) && u == Project(t, mk)
    requires forall e :: name(mk(e)) == e.key
    ensures forall x :: x in xs ==> x in Project(SortByDesc(u, order), name)
  {
    var b := SortByDesc(u, order);
    forall x | x in xs
      ensures x in Project(b, name)
    {
      assert x in Keys(t);
      var j :| 0 <= j < |t| && Keys(t)[j] == x;
      assert u[j] == mk(t[j]);
      assert u[j] in multiset(b);
      var i :| 0 <= i < |b| && b[i] == u[j];
      assert Project(b, name)[i] == x;
    }
  }
}
