/** Sequences, listings of sets and sorting by a key, shared by all components. */
module Collections {

  datatype Option<+T> = None | Some(value: T)

  datatype Result<+T, +E> = Ok(value: T) | Err(error: E)

  function Last<T>(s: seq<T>): T
    requires s != []
  {
    s[|s| - 1]
  }

  function Front<T>(s: seq<T>): seq<T>
    requires s != []
  {
    s[..|s| - 1]
  }

  function Elements<T(!new)>(s: seq<T>): (r: set<T>)
    ensures forall x :: x in r <==> x in s
  {
    set x | x in s
  }

  function Min(a: int, b: int): int {
    if a <= b then a else b
  }

  /** The first `n` elements, or all if there are fewer. */
  function Take<T>(s: seq<T>, n: nat): (r: seq<T>)
    ensures r <= s && |r| == (if n <= |s| then n else |s|)
  {
    if n <= |s| then s[..n] else s
  }

  function Map<A, B>(f: A -> B, s: seq<A>): (r: seq<B>)
    ensures |r| == |s|
    ensures forall i :: 0 <= i < |s| ==> r[i] == f(s[i])
  {
    seq(|s|, i requires 0 <= i < |s| => f(s[i]))
  }

  lemma MapPrefixStep<A, B>(f: A -> B, s: seq<A>, k: nat)
    requires k < |s|
    ensures Map(f, s[..k + 1]) == Map(f, s[..k]) + [f(s[k])]
  {
  }

  ghost predicate NoDuplicates<T>(s: seq<T>) {
    forall i, j :: 0 <= i < j < |s| ==> s[i] != s[j]
  }

  /** `order` names every element of `items` exactly once: one possible iteration order of a hash map. */
  ghost predicate Lists<T(!new)>(order: seq<T>, items: set<T>) {
    NoDuplicates(order) && forall x :: x in order <==> x in items
  }

  ghost predicate SortedBy<T>(key: T -> int, s: seq<T>) {
    forall i, j :: 0 <= i < j < |s| ==> key(s[i]) <= key(s[j])
  }

  ghost predicate StrictlySortedBy<T>(key: T -> int, s: seq<T>) {
    forall i, j :: 0 <= i < j < |s| ==> key(s[i]) < key(s[j])
  }

  predicate Ascending(s: seq<nat>) {
    forall i, j :: 0 <= i < j < |s| ==> s[i] < s[j]
  }

  ghost predicate DistinctKeys<T(!new)>(key: T -> int, items: set<T>) {
    forall x, y :: x in items && y in items && key(x) == key(y) ==> x == y
  }

  lemma {:induction false} NoDuplicatesCount<T(!new)>(s: seq<T>, x: T)
    requires NoDuplicates(s)
    ensures multiset(s)[x] == if x in s then 1 else 0
  {
    if s == [] {
    } else {
      NoDuplicatesCount(Front(s), x);
      assert s == Front(s) + [Last(s)];
    }
  }

  lemma ListingsPermute<T(!new)>(a: seq<T>, b: seq<T>, items: set<T>)
    requires Lists(a, items) && Lists(b, items)
    ensures multiset(a) == multiset(b)
  {
    forall x: T
      ensures multiset(a)[x] == multiset(b)[x]
    {
      NoDuplicatesCount(a, x);
      NoDuplicatesCount(b, x);
    }
  }

  lemma ListingFromPermutation<T(!new)>(a: seq<T>, b: seq<T>, items: set<T>)
    requires Lists(a, items) && multiset(a) == multiset(b)
    ensures Lists(b, items)
  {
    forall x: T
      ensures x in b <==> x in items
    {
      assert x in b <==> x in multiset(b);
      assert x in a <==> x in multiset(a);
    }
    forall i, j | 0 <= i < j < |b|
      ensures b[i] != b[j]
    {
      NoDuplicatesCount(a, b[i]);
      assert b == b[..i] + [b[i]] + b[i + 1..j] + [b[j]] + b[j + 1..];
    }
  }

  lemma MapPick<A, B>(f: A -> B, s: seq<A>, i: nat)
    requires i < |s|
    ensures multiset(s[..i] + s[i + 1..]) == multiset(s) - multiset{s[i]}
    ensures multiset(Map(f, s)) == multiset(Map(f, s[..i] + s[i + 1..])) + multiset{f(s[i])}
  {
    var m := Map(f, s);
    assert s == s[..i] + [s[i]] + s[i + 1..];
    assert m == m[..i] + [m[i]] + m[i + 1..];
    assert Map(f, s[..i] + s[i + 1..]) == m[..i] + m[i + 1..];
  }

  /** Mapping respects reordering. */
  lemma {:induction false} MapPermutes<A, B>(f: A -> B, a: seq<A>, b: seq<A>)
    requires multiset(a) == multiset(b)
    ensures multiset(Map(f, a)) == multiset(Map(f, b))
    decreases |a|
  {
    assert |a| == |multiset(a)| == |multiset(b)| == |b|;
    if a == [] {
    } else {
      assert a[0] in multiset(b);
      var i :| 0 <= i < |b| && b[i] == a[0];
      var a', b' := a[..0] + a[1..], b[..i] + b[i + 1..];
      MapPick(f, a, 0);
      MapPick(f, b, i);
      MapPermutes(f, a', b');
    }
  }

  lemma SortedListingStrict<T(!new)>(key: T -> int, s: seq<T>, items: set<T>)
    requires Lists(s, items) && SortedBy(key, s) && DistinctKeys(key, items)
    ensures StrictlySortedBy(key, s)
  {
  }

  /** A set with distinct keys has only one sorted listing. */
  lemma {:induction false} SortedListingUnique<T(!new)>(key: T -> int, a: seq<T>, b: seq<T>, items: set<T>)
    requires Lists(a, items) && Lists(b, items)
    requires StrictlySortedBy(key, a) && StrictlySortedBy(key, b)
    ensures a == b
    decreases |a|
  {
    ListsSize(a, items);
    ListsSize(b, items);
    if a == [] {
    } else {
      assert Last(a) in items && Last(b) in items;
      assert Last(a) == Last(b) by {
        var i :| 0 <= i < |a| && a[i] == Last(b);
        var j :| 0 <= j < |b| && b[j] == Last(a);
      }
      var rest := items - {Last(a)};
      FrontLists(a, items);
      FrontLists(b, items);
      SortedListingUnique(key, Front(a), Front(b), rest);
      assert a == Front(a) + [Last(a)];
      assert b == Front(b) + [Last(b)];
    }
  }

  lemma FrontLists<T(!new)>(s: seq<T>, items: set<T>)
    requires Lists(s, items) && s != []
    ensures Lists(Front(s), items - {Last(s)})
  {
    forall x: T
      ensures x in Front(s) <==> x in items - {Last(s)}
    {
      if x in Front(s) {
        var i :| 0 <= i < |s| - 1 && s[i] == x;
      }
      if x in items - {Last(s)} {
        var i :| 0 <= i < |s| && s[i] == x;
        assert Front(s)[i] == x;
      }
    }
  }

  lemma ListsSize<T(!new)>(s: seq<T>, items: set<T>)
    requires Lists(s, items)
    ensures |s| == |items|
    decreases |s|
  {
    if s == [] {
      assert items == {};
    } else {
      FrontLists(s, items);
      ListsSize(Front(s), items - {Last(s)});
    }
  }

  /** The standard library's stable sort. */
  function SortByKey<T(!new)>(key: T -> int, s: seq<T>): (r: seq<T>)
    ensures SortedBy(key, r)
    ensures multiset(r) == multiset(s)
    ensures |r| == |s|
  {
    if s == [] then [] else
      assert s == Front(s) + [Last(s)];
      InsertByKey(key, SortByKey(key, Front(s)), Last(s))
  }

  function InsertByKey<T(!new)>(key: T -> int, s: seq<T>, x: T): (r: seq<T>)
    requires SortedBy(key, s)
    ensures SortedBy(key, r)
    ensures multiset(r) == multiset(s) + multiset{x}
    ensures |r| == |s| + 1
    ensures forall y :: y in r ==> y in s || y == x
  {
    if s == [] || key(Last(s)) <= key(x) then s + [x] else
      var front := InsertByKey(key, Front(s), x);
      assert s == Front(s) + [Last(s)];
      assert forall y :: y in Front(s) ==> key(y) <= key(Last(s));
      assert forall y :: y in front ==> key(y) <= key(Last(s));
      front + [Last(s)]
  }

  /** The elements of `s` that are to be kept, in order. */
  function Filter<T(!new)>(keep: T -> bool, s: seq<T>): (r: seq<T>)
    ensures forall x :: x in r <==> x in s && keep(x)
  {
    if s == [] then [] else
      assert s == Front(s) + [Last(s)];
      Filter(keep, Front(s)) + if keep(Last(s)) then [Last(s)] else []
  }

  lemma {:induction false} FilterKeepsOrder<T(!new)>(key: T -> int, keep: T -> bool, s: seq<T>)
    requires NoDuplicates(s) && SortedBy(key, s)
    ensures NoDuplicates(Filter(keep, s)) && SortedBy(key, Filter(keep, s))
  {
    if s == [] {
    } else {
      FilterKeepsOrder(key, keep, Front(s));
      var r := Filter(keep, Front(s));
      assert forall x :: x in Front(s) ==> x != Last(s) && key(x) <= key(Last(s));
      assert forall i :: 0 <= i < |r| ==> r[i] in Front(s);
    }
  }

  /** The elements of `s` that are not in `drop`, in order. */
  function Without<T(==,!new)>(s: seq<T>, drop: set<T>): (r: seq<T>)
    ensures forall x :: x in r <==> x in s && x !in drop
  {
    if s == [] then [] else
      assert s == Front(s) + [Last(s)];
      Without(Front(s), drop) + if Last(s) in drop then [] else [Last(s)]
  }

  lemma {:induction false} WithoutConcat<T(!new)>(s: seq<T>, t: seq<T>, drop: set<T>)
    ensures Without(s + t, drop) == Without(s, drop) + Without(t, drop)
    decreases |t|
  {
    if t == [] {
      assert s + t == s;
    } else {
      var kept := if Last(t) in drop then [] else [Last(t)];
      calc {
        Without(s + t, drop);
        { assert Front(s + t) == s + Front(t) && Last(s + t) == Last(t); }
        Without(s + Front(t), drop) + kept;
        { WithoutConcat(s, Front(t), drop); }
        Without(s, drop) + Without(Front(t), drop) + kept;
        Without(s, drop) + (Without(Front(t), drop) + kept);
      }
    }
  }

  lemma {:induction false} WithoutTwice<T(!new)>(s: seq<T>, d: set<T>, e: set<T>)
    ensures Without(Without(s, d), e) == Without(s, d + e)
  {
    if s == [] {
    } else {
      WithoutTwice(Front(s), d, e);
      WithoutConcat(Without(Front(s), d), if Last(s) in d then [] else [Last(s)], e);
    }
  }

  lemma {:induction false} WithoutNothing<T(!new)>(s: seq<T>, drop: set<T>)
    requires forall x :: x in s ==> x !in drop
    ensures Without(s, drop) == s
  {
    if s == [] {
    } else {
      assert s == Front(s) + [Last(s)];
      WithoutNothing(Front(s), drop);
    }
  }

  /** Dropping elements keeps a strict order of the rest. */
  lemma {:induction false} WithoutKeepsOrder<T(!new)>(key: T -> int, s: seq<T>, drop: set<T>)
    requires StrictlySortedBy(key, s)
    ensures StrictlySortedBy(key, Without(s, drop))
  {
    if s == [] {
    } else {
      WithoutKeepsOrder(key, Front(s), drop);
      var r := Without(Front(s), drop);
      forall i | 0 <= i < |r|
        ensures key(r[i]) < key(Last(s))
      {
        assert r[i] in Front(s);
        var j :| 0 <= j < |s| - 1 && Front(s)[j] == r[i];
        assert s[j] == r[i];
      }
    }
  }

  // ---- Hash maps ----

  /** The keys of a hash map in its arbitrary iteration order. */
  method Iterate<K(==,!new)>(keys: set<K>) returns (order: seq<K>)
    ensures Lists(order, keys)
  {
    order := [];
    var left := keys;
    while left != {}
      invariant left <= keys
      invariant Lists(order, keys - left)
      decreases left
    {
      var k :| k in left;
      order := order + [k];
      left := left - {k};
    }
  }

  /** The entries of a hash map in its arbitrary iteration order. */
  method IterateMap<K(==,!new), V>(m: map<K, V>) returns (keys: seq<K>, values: seq<V>)
    ensures Lists(keys, m.Keys)
    ensures |values| == |keys| && forall i :: 0 <= i < |keys| ==> keys[i] in m && values[i] == m[keys[i]]
  {
    keys := Iterate(m.Keys);
    values := [];
    for k := 0 to |keys|
      invariant |values| == k && forall i :: 0 <= i < k ==> keys[i] in m && values[i] == m[keys[i]]
    {
      assert keys[k] in keys;
      values := values + [m[keys[k]]];
    }
  }
}
