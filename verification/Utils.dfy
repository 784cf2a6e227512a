/** List comparison and map merging (src/utils.rs). */
module Utils {
  import opened Collections

  // ---- Merging maps ----

  /** The greater value of both maps, key by key. */
  function MaxMerged<K>(a: map<K, int>, b: map<K, int>): (r: map<K, int>)
    ensures r.Keys == a.Keys + b.Keys
  {
    map k | k in a.Keys + b.Keys ::
      if k !in b then a[k] else if k !in a || a[k] < b[k] then b[k] else a[k]
  }

  method MergeMapMax<K>(a: map<K, int>, b: map<K, int>) returns (r: map<K, int>)
    ensures r == MaxMerged(a, b)
    ensures forall k :: k in r <==> k in a || k in b
    ensures forall k :: k in a ==> a[k] <= r[k]
    ensures forall k :: k in b ==> b[k] <= r[k]
    ensures forall k :: k in r ==> (k in a && r[k] == a[k]) || (k in b && r[k] == b[k])
  {
    r := a;
    var left := b.Keys;
    while left != {}
      invariant left <= b.Keys
      invariant r == MaxMerged(a, map k | k in b && k !in left :: b[k])
      decreases left
    {
      var k :| k in left;
      if k !in r || b[k] > r[k] {
        r := r[k := b[k]];
      }
      left := left - {k};
    }
    assert (map k | k in b && k !in left :: b[k]) == b;
  }

  // ---- Comparing lists ----

  datatype Comparison<T> = Comparison(added: seq<T>, updated: seq<(T, T)>, deleted: seq<T>)

  type Relation<!T> = (T, T) -> bool

  /** The index of the first old item that is the same item. */
  function FirstMatch<T>(olds: seq<T>, item: T, same: Relation<T>): (r: Option<nat>)
    ensures r.Some? ==> r.value < |olds| && same(olds[r.value], item)
    ensures r.Some? ==> forall i :: 0 <= i < r.value ==> !same(olds[i], item)
    ensures r.None? ==> forall i :: 0 <= i < |olds| ==> !same(olds[i], item)
  {
    if olds == [] then None
    else if same(olds[0], item) then Some(0)
    else match FirstMatch(olds[1..], item, same) case None => None case Some(i) => Some(i + 1)
  }

  function Added<T>(olds: seq<T>, news: seq<T>, same: Relation<T>): seq<T> {
    if news == [] then [] else
      Added(olds, Front(news), same) + if FirstMatch(olds, Last(news), same).None? then [Last(news)] else []
  }

  function Updated<T>(olds: seq<T>, news: seq<T>, same: Relation<T>, matches: Relation<T>): seq<(T, T)> {
    if news == [] then [] else
      Updated(olds, Front(news), same, matches) +
      match FirstMatch(olds, Last(news), same)
      case None => []
      case Some(i) => if matches(olds[i], Last(news)) then [] else [(olds[i], Last(news))]
  }

  function Matched<T>(olds: seq<T>, news: seq<T>, same: Relation<T>): set<nat> {
    set i: nat | i < |olds| && exists n :: 0 <= n < |news| && FirstMatch(olds, news[n], same) == Some(i)
  }

  /** The old items whose index is not matched, in order. */
  function Unmatched<T>(olds: seq<T>, matched: set<nat>): seq<T> {
    if olds == [] then [] else
      Unmatched(Front(olds), matched) + if |olds| - 1 in matched then [] else [Last(olds)]
  }

  method CompareLists<T>(olds: seq<T>, news: seq<T>, same: Relation<T>, matches: Relation<T>)
    returns (r: Comparison<T>)
    ensures r.added == Added(olds, news, same)
    ensures r.updated == Updated(olds, news, same, matches)
    ensures r.deleted == Unmatched(olds, Matched(olds, news, same))
  {
    var added, updated, deleted := [], [], [];
    var matched: seq<nat> := [];
    for n := 0 to |news|
      invariant added == Added(olds, news[..n], same)
      invariant updated == Updated(olds, news[..n], same, matches)
      invariant Elements(matched) == Matched(olds, news[..n], same)
    {
      assert news[..n + 1] == news[..n] + [news[n]];
      MatchedNext(olds, news[..n], news[n], same);
      var found := false;
      for i := 0 to |olds|
        invariant !found && FirstMatchFrom(olds, news[n], same, i)
      {
        if same(olds[i], news[n]) {
          found := true;
          matched := matched + [i];
          if !matches(olds[i], news[n]) {
            updated := updated + [(olds[i], news[n])];
          }
          break;
        }
      }
      if !found {
        added := added + [news[n]];
      }
    }
    assert news[..|news|] == news;
    for i := 0 to |olds|
      invariant deleted == Unmatched(olds[..i], Elements(matched))
    {
      assert olds[..i + 1] == olds[..i] + [olds[i]];
      if i !in matched {
        deleted := deleted + [olds[i]];
      }
    }
    assert olds[..|olds|] == olds;
    r := Comparison(added, updated, deleted);
  }

  ghost predicate FirstMatchFrom<T>(olds: seq<T>, item: T, same: Relation<T>, i: nat)
  {
    i <= |olds| && forall j :: 0 <= j < i ==> !same(olds[j], item)
  }

  lemma MatchedNext<T>(olds: seq<T>, news: seq<T>, item: T, same: Relation<T>)
    ensures var m := FirstMatch(olds, item, same);
            Matched(olds, news + [item], same) == Matched(olds, news, same) + if m.Some? then {m.value} else {}
  {
    assert (news + [item])[|news|] == item;
    assert forall n :: 0 <= n < |news| ==> (news + [item])[n] == news[n];
  }

  // ---- What the parts are ----

  /** The first old item that is the same item. */
  predicate IsFirst<T>(olds: seq<T>, item: T, same: Relation<T>, i: int) {
    0 <= i < |olds| && same(olds[i], item) && forall j :: 0 <= j < i ==> !same(olds[j], item)
  }

  lemma FirstIs<T>(olds: seq<T>, item: T, same: Relation<T>, i: nat)
    ensures FirstMatch(olds, item, same) == Some(i) <==> IsFirst(olds, item, same, i)
    ensures FirstMatch(olds, item, same).None? <==> forall j :: 0 <= j < |olds| ==> !same(olds[j], item)
  {
  }

  /** The items at the positions `at`, in order and each once. */
  predicate PicksOut<T(==)>(r: seq<T>, s: seq<T>, at: seq<nat>) {
    |r| == |at| && Ascending(at) && forall k :: 0 <= k < |at| ==> at[k] < |s| && r[k] == s[at[k]]
  }

  lemma PicksMore<T>(r: seq<T>, s: seq<T>, at: seq<nat>, x: T, more: bool)
    requires PicksOut(r, s, at)
    ensures PicksOut(r + if more then [x] else [], s + [x], at + if more then [|s|] else [])
    ensures forall n: nat :: n in at + (if more then [|s|] else []) <==> n in at || (more && n == |s|)
  {
  }

  /** The new items added are those without a match, in order. */
  lemma {:induction false} AddedAre<T>(olds: seq<T>, news: seq<T>, same: Relation<T>) returns (at: seq<nat>)
    ensures PicksOut(Added(olds, news, same), news, at)
    ensures forall n: nat :: n in at <==> n < |news| && forall i :: 0 <= i < |olds| ==> !same(olds[i], news[n])
  {
    at := [];
    if news == [] {
    } else {
      var front, x := Front(news), Last(news);
      at := AddedAre(olds, front, same);
      var more := FirstMatch(olds, x, same).None?;
      PicksMore(Added(olds, front, same), front, at, x, more);
      assert front + [x] == news;
      at := at + if more then [|front|] else [];
    }
  }

  /** The old items deleted are those that are the first match of no new item, in order. */
  lemma DeletedAre<T>(olds: seq<T>, news: seq<T>, same: Relation<T>) returns (at: seq<nat>)
    ensures PicksOut(Unmatched(olds, Matched(olds, news, same)), olds, at)
    ensures forall i: nat :: i in at <==>
              i < |olds| && forall n :: 0 <= n < |news| ==> !IsFirst(olds, news[n], same, i)
  {
    at := UnmatchedAre(olds, Matched(olds, news, same));
    forall i: nat, n | i < |olds| && 0 <= n < |news|
      ensures FirstMatch(olds, news[n], same) == Some(i) <==> IsFirst(olds, news[n], same, i)
    {
      FirstIs(olds, news[n], same, i);
    }
  }

  lemma {:induction false} UnmatchedAre<T>(olds: seq<T>, matched: set<nat>) returns (at: seq<nat>)
    ensures PicksOut(Unmatched(olds, matched), olds, at)
    ensures forall i: nat :: i in at <==> i < |olds| && i !in matched
  {
    at := [];
    if olds == [] {
    } else {
      var front, x := Front(olds), Last(olds);
      at := UnmatchedAre(front, matched);
      var more := |front| !in matched;
      PicksMore(Unmatched(front, matched), front, at, x, more);
      assert front + [x] == olds;
      at := at + if more then [|front|] else [];
    }
  }

  /** The pairs at the positions `from` and `at`, each new item with its first match, in the order of the new ones. */
  predicate PairsUp<T(==)>(
    r: seq<(T, T)>, olds: seq<T>, news: seq<T>, same: Relation<T>, from: seq<nat>, at: seq<nat>)
  {
    && |r| == |at| == |from| && Ascending(at)
    && forall k :: 0 <= k < |at| ==>
         at[k] < |news| && IsFirst(olds, news[at[k]], same, from[k]) && r[k] == (olds[from[k]], news[at[k]])
  }

  ghost predicate Differs<T>(olds: seq<T>, item: T, same: Relation<T>, matches: Relation<T>) {
    exists i :: IsFirst(olds, item, same, i) && !matches(olds[i], item)
  }

  /** The positions `at` are those of the new items that differ from their first match. */
  ghost predicate AllDiffering<T>(
    olds: seq<T>, news: seq<T>, same: Relation<T>, matches: Relation<T>, at: seq<nat>)
  {
    forall n: nat :: n in at <==> n < |news| && Differs(olds, news[n], same, matches)
  }

  lemma PairsKept<T>(
    r: seq<(T, T)>, olds: seq<T>, news: seq<T>, same: Relation<T>, from: seq<nat>, at: seq<nat>, x: T)
    requires PairsUp(r, olds, news, same, from, at)
    ensures PairsUp(r, olds, news + [x], same, from, at)
  {
  }

  lemma PairsMore<T>(
    r: seq<(T, T)>, olds: seq<T>, news: seq<T>, same: Relation<T>, from: seq<nat>, at: seq<nat>, x: T, i: nat)
    requires PairsUp(r, olds, news, same, from, at) && IsFirst(olds, x, same, i)
    ensures PairsUp(r + [(olds[i], x)], olds, news + [x], same, from + [i], at + [|news|])
  {
    PairsKept(r, olds, news, same, from, at, x);
  }

  lemma DifferingMore<T>(
    olds: seq<T>, news: seq<T>, same: Relation<T>, matches: Relation<T>, at: seq<nat>, x: T, more: bool)
    requires AllDiffering(olds, news, same, matches, at) && (more <==> Differs(olds, x, same, matches))
    ensures AllDiffering(olds, news + [x], same, matches, at + if more then [|news|] else [])
  {
  }

  /** The updated pairs: each new item that differs from its first match, with that match, in order. */
  lemma {:induction false} UpdatedAre<T>(olds: seq<T>, news: seq<T>, same: Relation<T>, matches: Relation<T>)
    returns (from: seq<nat>, at: seq<nat>)
    ensures PairsUp(Updated(olds, news, same, matches), olds, news, same, from, at)
    ensures AllDiffering(olds, news, same, matches, at)
  {
    if news == [] {
      from, at := [], [];
    } else {
      var front, x := Front(news), Last(news);
      from, at := UpdatedAre(olds, front, same, matches);
      var pairs, m := Updated(olds, front, same, matches), FirstMatch(olds, x, same);
      assert front + [x] == news;
      DiffersIff(olds, x, same, matches);
      if m.Some? && !matches(olds[m.value], x) {
        FirstIs(olds, x, same, m.value);
        PairsMore(pairs, olds, front, same, from, at, x, m.value);
        DifferingMore(olds, front, same, matches, at, x, true);
        from, at := from + [m.value], at + [|front|];
      } else {
        PairsKept(pairs, olds, front, same, from, at, x);
        DifferingMore(olds, front, same, matches, at, x, false);
        assert pairs + [] == pairs && at + [] == at;
      }
    }
  }

  lemma DiffersIff<T>(olds: seq<T>, item: T, same: Relation<T>, matches: Relation<T>)
    ensures var m := FirstMatch(olds, item, same);
            Differs(olds, item, same, matches) <==> m.Some? && !matches(olds[m.value], item)
  {
    var m := FirstMatch(olds, item, same);
    if m.Some? {
      FirstIs(olds, item, same, m.value);
    }
  }
}
