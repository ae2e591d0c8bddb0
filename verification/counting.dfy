/**
 * The Series operations the charts are built from, over a column given as a
 * sequence of possibly-missing keys: `value_counts` (missing keys dropped,
 * highest count first), `head(n)`, `reindex(labels).fillna(0)` and
 * `sort_index()`.
 */
module Counting {
  import opened Wrappers
  import opened Records

  /** One bar of a chart: a key and the number of rows that carry it. */
  datatype Entry<K> = Entry(key: K, count: nat)

  /** The number of cells of the column equal to `k` (never a missing cell). */
  function Occurrences<K(==)>(keys: seq<Option<K>>, k: K): (n: nat)
    ensures n <= |keys|
    ensures n == 0 <==> Some(k) !in keys
  {
    if keys == [] then 0
    else
      assert keys == keys[..|keys| - 1] + [keys[|keys| - 1]];
      Occurrences(keys[..|keys| - 1], k) + (if keys[|keys| - 1] == Some(k) then 1 else 0)
  }

  /** The number of cells of the column that are not missing. */
  function PresentCount<K>(keys: seq<Option<K>>): (n: nat)
    ensures n <= |keys|
  {
    if keys == [] then 0
    else PresentCount(keys[..|keys| - 1]) + (if keys[|keys| - 1].Some? then 1 else 0)
  }

  lemma {:induction false} PresentCountAll<K>(keys: seq<Option<K>>)
    requires forall i :: 0 <= i < |keys| ==> keys[i].Some?
    ensures PresentCount(keys) == |keys|
  {
    if keys != [] {
      PresentCountAll(keys[..|keys| - 1]);
    }
  }

  function KeysOf<K>(es: seq<Entry<K>>): (ks: seq<K>)
    ensures |ks| == |es| && forall i :: 0 <= i < |es| ==> ks[i] == es[i].key
  {
    if es == [] then [] else [es[0].key] + KeysOf(es[1..])
  }

  /** The total of the counts of a chart. */
  function Sum<K>(es: seq<Entry<K>>): nat {
    if es == [] then 0 else es[0].count + Sum(es[1..])
  }

  /** The distinct present keys of the column, in order of first appearance. */
  function Uniques<K(==,!new)>(keys: seq<Option<K>>): (ks: seq<K>)
    ensures forall k :: k in ks <==> Some(k) in keys
    ensures Distinct(ks)
  {
    if keys == [] then []
    else
      var rest := Uniques(keys[..|keys| - 1]);
      var last := keys[|keys| - 1];
      assert keys == keys[..|keys| - 1] + [last];
      if last.Some? && last.value !in rest then rest + [last.value] else rest
  }

  /** Each of `ks` paired with its number of occurrences in the column. */
  function Tally<K(==)>(ks: seq<K>, keys: seq<Option<K>>): (es: seq<Entry<K>>)
    ensures KeysOf(es) == ks
    ensures forall e :: e in es ==> e.count == Occurrences(keys, e.key)
  {
    if ks == [] then [] else [Entry(ks[0], Occurrences(keys, ks[0]))] + Tally(ks[1..], keys)
  }

  /** Tallying an empty column gives zero for every key. */
  lemma {:induction false} TallyEmpty<K>(ks: seq<K>)
    ensures Sum(Tally(ks, [])) == 0
  {
    if ks != [] {
      TallyEmpty(ks[1..]);
    }
  }

  /** One more cell adds one to the total exactly when it is one of the tallied keys. */
  lemma {:induction false} TallyAppend<K>(ks: seq<K>, keys: seq<Option<K>>, x: Option<K>)
    requires Distinct(ks)
    ensures Sum(Tally(ks, keys + [x])) == Sum(Tally(ks, keys)) + (if x.Some? && x.value in ks then 1 else 0)
  {
    assert (keys + [x])[..|keys|] == keys;
    if ks != [] {
      TallyAppend(ks[1..], keys, x);
    }
  }

  /**
   * When the tallied keys are distinct and cover every present cell, the
   * tally accounts for every present cell exactly once.
   */
  lemma {:induction false} TallyCovers<K>(ks: seq<K>, keys: seq<Option<K>>)
    requires Distinct(ks)
    requires forall i :: 0 <= i < |keys| && keys[i].Some? ==> keys[i].value in ks
    ensures Sum(Tally(ks, keys)) == PresentCount(keys)
  {
    if keys == [] {
      TallyEmpty(ks);
    } else {
      var init := keys[..|keys| - 1];
      var last := keys[|keys| - 1];
      assert keys == init + [last];
      TallyCovers(ks, init);
      TallyAppend(ks, init, last);
    }
  }

  /** `before` is a total preorder on entries: the order a stable sort sorts by. */
  ghost predicate TotalPreorder<K(!new)>(before: (Entry<K>, Entry<K>) -> bool) {
    && (forall a, b :: before(a, b) || before(b, a))
    && (forall a, b, c :: before(a, b) && before(b, c) ==> before(a, c))
  }

  ghost predicate SortedBy<K>(es: seq<Entry<K>>, before: (Entry<K>, Entry<K>) -> bool) {
    forall i, j :: 0 <= i < j < |es| ==> before(es[i], es[j])
  }

  /** Insert `e` in front of the first entry it may precede. */
  function Insert<K(==,!new)>(e: Entry<K>, es: seq<Entry<K>>, before: (Entry<K>, Entry<K>) -> bool): (r: seq<Entry<K>>)
    ensures |r| == |es| + 1
    ensures forall x :: x in r <==> x == e || x in es
    ensures Sum(r) == e.count + Sum(es)
  {
    if es == [] then [e]
    else if before(e, es[0]) then [e] + es
    else
      var rest := Insert(e, es[1..], before);
      assert es == [es[0]] + es[1..];
      assert ([es[0]] + rest)[1..] == rest;
      [es[0]] + rest
  }

  lemma KeysOfMembers<K>(es: seq<Entry<K>>)
    ensures forall k :: k in KeysOf(es) <==> exists x :: x in es && x.key == k
  {
  }

  /** Inserting a new key into entries with distinct keys keeps the keys distinct. */
  lemma {:induction false} InsertDistinct<K(!new)>(e: Entry<K>, es: seq<Entry<K>>, before: (Entry<K>, Entry<K>) -> bool)
    requires Distinct(KeysOf(es)) && e.key !in KeysOf(es)
    ensures Distinct(KeysOf(Insert(e, es, before)))
  {
    if es != [] && !before(e, es[0]) {
      var rest := Insert(e, es[1..], before);
      assert KeysOf(es) == [es[0].key] + KeysOf(es[1..]);
      InsertDistinct(e, es[1..], before);
      KeysOfMembers(rest);
      KeysOfMembers(es[1..]);
      assert es[0].key !in KeysOf(rest);
      assert KeysOf([es[0]] + rest) == [es[0].key] + KeysOf(rest);
    }
  }

  /** Inserting into a sorted sequence keeps it sorted. */
  lemma {:induction false} InsertSorted<K(!new)>(e: Entry<K>, es: seq<Entry<K>>, before: (Entry<K>, Entry<K>) -> bool)
    requires TotalPreorder(before) && SortedBy(es, before)
    ensures SortedBy(Insert(e, es, before), before)
  {
    if es != [] {
      if before(e, es[0]) {
        var r := [e] + es;
        forall i, j | 0 <= i < j < |r| ensures before(r[i], r[j]) {
          if i == 0 && j > 1 { assert before(es[0], es[j - 1]); }
        }
      } else {
        var rest := Insert(e, es[1..], before);
        InsertSorted(e, es[1..], before);
        var r := [es[0]] + rest;
        forall j | 0 < j < |r| ensures before(r[0], r[j]) {
          assert r[j] in rest;
          if r[j] != e {
            var p :| 0 <= p < |es[1..]| && es[1..][p] == r[j];
            assert before(es[0], es[p + 1]);
          }
        }
      }
    }
  }

  /** A stable insertion sort: a rearrangement of `es`. */
  function SortBy<K(==,!new)>(es: seq<Entry<K>>, before: (Entry<K>, Entry<K>) -> bool): (r: seq<Entry<K>>)
    ensures |r| == |es|
    ensures forall x :: x in r <==> x in es
    ensures Sum(r) == Sum(es)
  {
    if es == [] then []
    else
      assert es == [es[0]] + es[1..];
      Insert(es[0], SortBy(es[1..], before), before)
  }

  /** Sorting by a total preorder leaves the entries in that order. */
  lemma {:induction false} SortBySorted<K(!new)>(es: seq<Entry<K>>, before: (Entry<K>, Entry<K>) -> bool)
    requires TotalPreorder(before)
    ensures SortedBy(SortBy(es, before), before)
  {
    if es != [] {
      SortBySorted(es[1..], before);
      InsertSorted(es[0], SortBy(es[1..], before), before);
    }
  }

  /** Sorting entries with distinct keys leaves their keys distinct. */
  lemma {:induction false} SortByDistinct<K(!new)>(es: seq<Entry<K>>, before: (Entry<K>, Entry<K>) -> bool)
    requires Distinct(KeysOf(es))
    ensures Distinct(KeysOf(SortBy(es, before)))
  {
    if es != [] {
      var rest := SortBy(es[1..], before);
      assert KeysOf(es) == [es[0].key] + KeysOf(es[1..]);
      SortByDistinct(es[1..], before);
      KeysOfMembers(rest);
      KeysOfMembers(es[1..]);
      InsertDistinct(es[0], rest, before);
    }
  }

  /** Higher count first. */
  function ByCountDesc<K>(a: Entry<K>, b: Entry<K>): bool {
    a.count >= b.count
  }

  /** Smaller key first. */
  function ByKeyAsc(a: Entry<int>, b: Entry<int>): bool {
    a.key <= b.key
  }

  /**
   * `value_counts()`: one entry per distinct present key, carrying its
   * number of occurrences, highest count first; missing cells are dropped,
   * so the counts add up to the number of present cells. The order among
   * equal counts is left open.
   */
  function ValueCounts<K(==,!new)>(keys: seq<Option<K>>): (r: seq<Entry<K>>)
    ensures forall i, j :: 0 <= i < j < |r| ==> r[i].count >= r[j].count
    ensures Distinct(KeysOf(r))
    ensures forall k :: k in KeysOf(r) <==> Some(k) in keys
    ensures forall e :: e in r ==> e.count == Occurrences(keys, e.key) && e.count > 0
    ensures Sum(r) == PresentCount(keys)
  {
    var ks := Uniques(keys);
    var tally := Tally(ks, keys);
    TallyFacts(ks, keys);
    TallyCovers(ks, keys);
    var r := SortBy(tally, ByCountDesc);
    SortByCountDesc(tally, r);
    SortByDistinct(tally, ByCountDesc);
    SortByKeys(tally, ByCountDesc);
    r
  }

  /** Every tallied entry of a present key has a positive count. */
  lemma TallyFacts<K(!new)>(ks: seq<K>, keys: seq<Option<K>>)
    requires forall k :: k in ks ==> Some(k) in keys
    ensures forall e :: e in Tally(ks, keys) ==> e.count == Occurrences(keys, e.key) && e.count > 0
  {
  }

  /** Sorting by `ByCountDesc` leaves the counts non-increasing. */
  lemma SortByCountDesc<K(!new)>(es: seq<Entry<K>>, r: seq<Entry<K>>)
    requires r == SortBy(es, ByCountDesc)
    ensures forall i, j :: 0 <= i < j < |r| ==> r[i].count >= r[j].count
  {
    assert TotalPreorder(ByCountDesc<K>);
    SortBySorted(es, ByCountDesc);
    forall i, j | 0 <= i < j < |r| ensures r[i].count >= r[j].count {
      assert ByCountDesc(r[i], r[j]);
    }
  }

  /** Sorting does not change which keys are listed. */
  lemma SortByKeys<K(!new)>(es: seq<Entry<K>>, before: (Entry<K>, Entry<K>) -> bool)
    ensures forall k :: k in KeysOf(SortBy(es, before)) <==> k in KeysOf(es)
  {
    KeysOfMembers(SortBy(es, before));
    KeysOfMembers(es);
  }

  /**
   * `value_counts().head(n)`: the `n` keys with the highest counts. Every
   * listed count is exact, and a present key is left out only when the list
   * is full and its count is no higher than any listed one.
   */
  function TopCounts<K(==,!new)>(keys: seq<Option<K>>, n: nat): (r: seq<Entry<K>>)
    ensures |r| <= n
    ensures forall i, j :: 0 <= i < j < |r| ==> r[i].count >= r[j].count
    ensures Distinct(KeysOf(r))
    ensures forall e :: e in r ==> Some(e.key) in keys && e.count == Occurrences(keys, e.key)
    ensures forall k :: Some(k) in keys && k !in KeysOf(r) ==>
      |r| == n && forall i :: 0 <= i < |r| ==> Occurrences(keys, k) <= r[i].count
  {
    var all := ValueCounts(keys);
    PrefixKeeps(keys, all, n);
    PrefixOmits(keys, all, n);
    all[..if n < |all| then n else |all|]
  }

  /** The first `n` entries of a count-sorted list are still sorted, distinct and exact. */
  lemma PrefixKeeps<K(!new)>(keys: seq<Option<K>>, all: seq<Entry<K>>, n: nat)
    requires forall i, j :: 0 <= i < j < |all| ==> all[i].count >= all[j].count
    requires Distinct(KeysOf(all))
    requires forall k :: k in KeysOf(all) <==> Some(k) in keys
    requires forall e :: e in all ==> e.count == Occurrences(keys, e.key)
    ensures var r := all[..if n < |all| then n else |all|];
      && (forall i, j :: 0 <= i < j < |r| ==> r[i].count >= r[j].count)
      && Distinct(KeysOf(r))
      && (forall e :: e in r ==> Some(e.key) in keys && e.count == Occurrences(keys, e.key))
  {
  }

  /** A key missing from the first `n` entries of a count-sorted list counts no more than any of them. */
  lemma PrefixOmits<K(!new)>(keys: seq<Option<K>>, all: seq<Entry<K>>, n: nat)
    requires forall i, j :: 0 <= i < j < |all| ==> all[i].count >= all[j].count
    requires forall k :: k in KeysOf(all) <==> Some(k) in keys
    requires forall e :: e in all ==> e.count == Occurrences(keys, e.key)
    ensures var r := all[..if n < |all| then n else |all|];
      forall k :: Some(k) in keys && k !in KeysOf(r) ==>
        |r| == n && forall i :: 0 <= i < |r| ==> Occurrences(keys, k) <= r[i].count
  {
    var m := if n < |all| then n else |all|;
    var r := all[..m];
    assert forall i :: 0 <= i < m ==> KeysOf(r)[i] == KeysOf(all)[i];
    forall k | Some(k) in keys && k !in KeysOf(r)
      ensures |r| == n && forall i :: 0 <= i < |r| ==> Occurrences(keys, k) <= r[i].count
    {
      var p :| 0 <= p < |all| && KeysOf(all)[p] == k;
      assert all[p] in all;
      forall i | 0 <= i < m ensures Occurrences(keys, k) <= r[i].count {
        assert all[i].count >= all[p].count;
      }
    }
  }

  /** The count listed under `k`, if `k` is listed. */
  function Lookup<K(==)>(es: seq<Entry<K>>, k: K): (c: Option<nat>)
    ensures c.None? <==> k !in KeysOf(es)
    ensures c.Some? ==> Entry(k, c.value) in es
  {
    if es == [] then None
    else
      assert KeysOf(es) == [es[0].key] + KeysOf(es[1..]);
      if es[0].key == k then Some(es[0].count) else Lookup(es[1..], k)
  }

  /**
   * `reindex(labels).fillna(0)`: one entry per label, in the order of
   * `labels`, carrying the count listed for it or 0 when it is not listed.
   */
  function Reindex<K(==)>(es: seq<Entry<K>>, labels: seq<K>): (r: seq<Entry<K>>)
    ensures KeysOf(r) == labels
    ensures forall i :: 0 <= i < |labels| ==>
      (labels[i] in KeysOf(es) ==> Entry(labels[i], r[i].count) in es) &&
      (labels[i] !in KeysOf(es) ==> r[i].count == 0)
  {
    if labels == [] then []
    else [Entry(labels[0], Lookup(es, labels[0]).GetOr(0))] + Reindex(es, labels[1..])
  }

  /** `value_counts().reindex(labels).fillna(0)` is the tally of the labels. */
  lemma ReindexCounts<K(!new)>(keys: seq<Option<K>>, labels: seq<K>)
    ensures Reindex(ValueCounts(keys), labels) == Tally(labels, keys)
  {
  }

  /**
   * `value_counts().sort_index()` on an integer column: one entry per
   * distinct present key with its exact count, keys strictly ascending, the
   * counts adding up to the number of present cells.
   */
  function CountsByKey(keys: seq<Option<int>>): (r: seq<Entry<int>>)
    ensures forall i, j :: 0 <= i < j < |r| ==> r[i].key < r[j].key
    ensures forall k :: k in KeysOf(r) <==> Some(k) in keys
    ensures forall e :: e in r ==> e.count == Occurrences(keys, e.key) && e.count > 0
    ensures Sum(r) == PresentCount(keys)
  {
    var counts := ValueCounts(keys);
    var r := SortBy(counts, ByKeyAsc);
    SortByKeyAsc(counts, r);
    SortByKeys(counts, ByKeyAsc);
    r
  }

  /** Sorting entries with distinct keys by `ByKeyAsc` leaves the keys strictly ascending. */
  lemma SortByKeyAsc(es: seq<Entry<int>>, r: seq<Entry<int>>)
    requires Distinct(KeysOf(es)) && r == SortBy(es, ByKeyAsc)
    ensures forall i, j :: 0 <= i < j < |r| ==> r[i].key < r[j].key
  {
    assert TotalPreorder(ByKeyAsc);
    SortBySorted(es, ByKeyAsc);
    SortByDistinct(es, ByKeyAsc);
    forall i, j | 0 <= i < j < |r| ensures r[i].key < r[j].key {
      assert ByKeyAsc(r[i], r[j]);
      assert KeysOf(r)[i] != KeysOf(r)[j];
    }
  }
}
