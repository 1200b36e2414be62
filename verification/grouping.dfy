/** The grouping loop shared by both report views: walk the reports, open a
    list for every key not seen before, append each report to the list of
    its key, then sort every list. The dictionary's insertion order is kept
    as `order`, which is the order the template iterates the groups in. */
module Grouping {
  import Seqs
  import opened Reports

  /** The reports with key `k`, in list order. */
  function Filter<K(==,!new)>(s: seq<Report>, key: Report -> K, k: K): (r: seq<Report>)
    ensures forall j :: 0 <= j < |r| ==> key(r[j]) == k
    ensures forall i :: 0 <= i < |s| && key(s[i]) == k ==> s[i] in r
    ensures (forall i :: 0 <= i < |s| ==> key(s[i]) != k) ==> r == []
    ensures forall y :: y in r ==> y in s
    decreases |s|
  {
    if |s| == 0 then []
    else
      var init := Filter(s[..|s| - 1], key, k);
      assert forall i :: 0 <= i < |s| - 1 ==> s[i] == s[..|s| - 1][i];
      if key(s[|s| - 1]) == k then init + [s[|s| - 1]] else init
  }

  /** The keys of the reports, one per report, in list order. */
  function KeysOf<K>(s: seq<Report>, key: Report -> K): (ks: seq<K>)
    ensures |ks| == |s| && forall i :: 0 <= i < |s| ==> ks[i] == key(s[i])
  {
    seq(|s|, i requires 0 <= i < |s| => key(s[i]))
  }

  /** All reports held by the groups listed in `order`. */
  function SumMs<K>(order: seq<K>, g: map<K, seq<Report>>): multiset<Report>
    requires forall i :: 0 <= i < |order| ==> order[i] in g
    decreases |order|
  {
    if |order| == 0 then multiset{}
    else SumMs(order[..|order| - 1], g) + multiset(g[order[|order| - 1]])
  }

  /** Changing a group outside `order` does not change what `order` holds. */
  lemma {:induction false} SumMsFrame<K>(order: seq<K>, g: map<K, seq<Report>>, k: K, v: seq<Report>)
    requires forall i :: 0 <= i < |order| ==> order[i] in g
    requires k !in order
    ensures SumMs(order, g[k := v]) == SumMs(order, g)
    decreases |order|
  {
    if |order| > 0 {
      var init := order[..|order| - 1];
      assert forall i :: 0 <= i < |init| ==> init[i] == order[i];
      SumMsFrame(init, g, k, v);
    }
  }

  /** Appending a report to one group listed once in `order` adds exactly
      that report. */
  lemma {:induction false} SumMsAppend<K>(order: seq<K>, g: map<K, seq<Report>>, k: K, x: Report)
    requires forall i :: 0 <= i < |order| ==> order[i] in g
    requires Seqs.Distinct(order) && k in order
    ensures SumMs(order, g[k := g[k] + [x]]) == SumMs(order, g) + multiset{x}
    decreases |order|
  {
    var init := order[..|order| - 1];
    assert forall i :: 0 <= i < |init| ==> init[i] == order[i];
    if order[|order| - 1] == k {
      assert k !in init;
      SumMsFrame(init, g, k, g[k] + [x]);
    } else {
      assert k in init;
      SumMsAppend(init, g, k, x);
    }
  }

  /** Groups with the same contents hold the same reports. */
  lemma {:induction false} SumMsPointwise<K>(order: seq<K>, g: map<K, seq<Report>>, h: map<K, seq<Report>>)
    requires forall i :: 0 <= i < |order| ==> order[i] in g && order[i] in h
    requires forall i :: 0 <= i < |order| ==> multiset(g[order[i]]) == multiset(h[order[i]])
    ensures SumMs(order, g) == SumMs(order, h)
    decreases |order|
  {
    if |order| > 0 {
      var init := order[..|order| - 1];
      assert forall i :: 0 <= i < |init| ==> init[i] == order[i];
      SumMsPointwise(init, g, h);
    }
  }

  /** What the first loop of `group_by_project` has built after the reports
      `s`: one list per key in first-appearance order, holding the reports of
      that key in list order. */
  ghost predicate Collected<K(!new)>(s: seq<Report>, key: Report -> K, order: seq<K>, groups: map<K, seq<Report>>) {
    && SameKeys(order, groups)
    && order == Seqs.Dedup(KeysOf(s, key))
    && ListsFollow(s, key, groups)
    && HoldsAll(s, order, groups)
  }

  ghost predicate SameKeys<K(!new)>(order: seq<K>, groups: map<K, seq<Report>>) {
    forall k :: k in groups <==> k in order
  }

  ghost predicate ListsFollow<K(!new)>(s: seq<Report>, key: Report -> K, groups: map<K, seq<Report>>) {
    forall k :: k in groups ==> groups[k] == Filter(s, key, k)
  }

  ghost predicate HoldsAll<K(!new)>(s: seq<Report>, order: seq<K>, groups: map<K, seq<Report>>) {
    (forall i :: 0 <= i < |order| ==> order[i] in groups) && SumMs(order, groups) == multiset(s)
  }

  lemma CollectedEmpty<K(!new)>(key: Report -> K)
    ensures Collected([], key, [], map[])
  {
  }

  lemma KeysOfSnoc<K>(s: seq<Report>, x: Report, key: Report -> K)
    ensures KeysOf(s + [x], key) == KeysOf(s, key) + [key(x)]
  {
  }

  lemma FilterSnoc<K(!new)>(s: seq<Report>, x: Report, key: Report -> K, k: K)
    ensures Filter(s + [x], key, k) == Filter(s, key, k) + (if key(x) == k then [x] else [])
  {
    assert (s + [x])[..|s|] == s;
  }

  lemma TakeSnoc(s: seq<Report>, n: nat)
    requires n < |s|
    ensures s[..n + 1] == s[..n] + [s[n]]
  {
  }

  /** The first-appearance order of keys grows by the new report's key
      exactly when that key is new. */
  lemma OrderStep<K>(s: seq<Report>, x: Report, key: Report -> K, order: seq<K>)
    requires order == Seqs.Dedup(KeysOf(s, key))
    ensures key(x) in order <==> key(x) in KeysOf(s, key)
    ensures Seqs.Dedup(KeysOf(s + [x], key)) == if key(x) in order then order else order + [key(x)]
  {
    KeysOfSnoc(s, x, key);
    var ks := KeysOf(s + [x], key);
    assert ks[..|ks| - 1] == KeysOf(s, key);
    assert forall i :: 0 <= i < |order| ==> order[i] in KeysOf(s, key);
  }

  /** Each list follows the filter of the reports walked so far. */
  lemma FilterStep<K(!new)>(s: seq<Report>, x: Report, key: Report -> K, groups: map<K, seq<Report>>)
    requires ListsFollow(s, key, groups)
    requires key(x) !in groups ==> Filter(s, key, key(x)) == []
    ensures ListsFollow(s + [x], key, if key(x) in groups then groups[key(x) := groups[key(x)] + [x]] else groups[key(x) := [x]])
  {
    forall k ensures Filter(s + [x], key, k) == Filter(s, key, k) + (if key(x) == k then [x] else []) {
      FilterSnoc(s, x, key, k);
    }
  }

  /** The lists together hold the reports walked so far. */
  lemma SumStep<K(!new)>(s: seq<Report>, x: Report, key: Report -> K, order: seq<K>, groups: map<K, seq<Report>>)
    requires SameKeys(order, groups)
    requires Seqs.Distinct(order)
    requires HoldsAll(s, order, groups)
    ensures key(x) in groups ==> HoldsAll(s + [x], order, groups[key(x) := groups[key(x)] + [x]])
    ensures key(x) !in groups ==> HoldsAll(s + [x], order + [key(x)], groups[key(x) := [x]])
  {
    var k := key(x);
    assert multiset(s + [x]) == multiset(s) + multiset{x};
    if k in groups {
      SumMsAppend(order, groups, k, x);
    } else {
      SumMsFrame(order, groups, k, [x]);
      var order' := order + [k];
      assert order'[..|order'| - 1] == order;
    }
  }

  /** Appending a report to the existing list of its key keeps the lists in
      step with the reports walked so far. */
  lemma CollectOld<K(!new)>(s: seq<Report>, x: Report, key: Report -> K, order: seq<K>, groups: map<K, seq<Report>>)
    requires Collected(s, key, order, groups)
    requires key(x) in groups
    ensures Collected(s + [x], key, order, groups[key(x) := groups[key(x)] + [x]])
  {
    var g := groups[key(x) := groups[key(x)] + [x]];
    assert SameKeys(order, g);
    assert order == Seqs.Dedup(KeysOf(s + [x], key)) by { OrderStep(s, x, key, order); }
    assert ListsFollow(s + [x], key, g) by { FilterStep(s, x, key, groups); }
    assert HoldsAll(s + [x], order, g) by { SumStep(s, x, key, order, groups); }
  }

  /** Opening the list of a new key with its first report keeps the lists in
      step with the reports walked so far. */
  lemma CollectNew<K(!new)>(s: seq<Report>, x: Report, key: Report -> K, order: seq<K>, groups: map<K, seq<Report>>)
    requires Collected(s, key, order, groups)
    requires key(x) !in groups
    ensures Collected(s + [x], key, order + [key(x)], groups[key(x) := [x]])
  {
    var g := groups[key(x) := [x]];
    var o := order + [key(x)];
    assert SameKeys(o, g);
    assert o == Seqs.Dedup(KeysOf(s + [x], key)) && key(x) !in KeysOf(s, key) by { OrderStep(s, x, key, order); }
    assert ListsFollow(s + [x], key, g) by { FilterStep(s, x, key, groups); }
    assert HoldsAll(s + [x], o, g) by { SumStep(s, x, key, order, groups); }
  }

  /** The first loop of `group_by_project`. */
  method Collect<K(==,!new)>(reports: seq<Report>, key: Report -> K) returns (order: seq<K>, groups: map<K, seq<Report>>)
    ensures Collected(reports, key, order, groups)
  {
    order, groups := [], map[];
    CollectedEmpty(key);
    var n := 0;
    while n < |reports|
      invariant 0 <= n <= |reports|
      invariant Collected(reports[..n], key, order, groups)
    {
      var r := reports[n];
      TakeSnoc(reports, n);
      if key(r) !in groups {
        CollectNew(reports[..n], r, key, order, groups);
        order := order + [key(r)];
        groups := groups[key(r) := [r]];
      } else {
        CollectOld(reports[..n], r, key, order, groups);
        groups := groups[key(r) := groups[key(r)] + [r]];
      }
      n := n + 1;
    }
    assert reports[..n] == reports;
  }

  /** `group_by_project`, parameterised by the key. */
  method GroupBy<K(==,!new)>(reports: seq<Report>, key: Report -> K) returns (order: seq<K>, groups: map<K, seq<Report>>)
    ensures order == Seqs.Dedup(KeysOf(reports, key))
    ensures forall k :: k in groups <==> k in order
    ensures forall k :: k in groups <==> exists i :: 0 <= i < |reports| && key(reports[i]) == k
    ensures forall k :: k in groups ==> Sorted(groups[k]) && multiset(groups[k]) == multiset(Filter(reports, key, k))
    ensures forall k, j :: k in groups && 0 <= j < |groups[k]| ==> key(groups[k][j]) == k
    ensures forall i :: 0 <= i < |reports| ==> key(reports[i]) in groups && reports[i] in groups[key(reports[i])]
    ensures SumMs(order, groups) == multiset(reports)
  {
    order, groups := Collect(reports, key);
    GroupsCover(reports, key, order, groups);
    groups := SortGroups(reports, key, order, groups);
  }

  /** The keys of the lists are exactly the keys of the reports, and every
      report sits in its key's list. */
  lemma GroupsCover<K(!new)>(reports: seq<Report>, key: Report -> K, order: seq<K>, groups: map<K, seq<Report>>)
    requires Collected(reports, key, order, groups)
    ensures forall k :: k in groups <==> exists i :: 0 <= i < |reports| && key(reports[i]) == k
  {
    var ks := KeysOf(reports, key);
    assert forall i :: 0 <= i < |order| ==> order[i] in ks;
    assert forall i :: 0 <= i < |ks| ==> ks[i] in order;
  }

  /** The second loop of `group_by_project`: sort every list in place. */
  method SortGroups<K(==,!new)>(reports: seq<Report>, key: Report -> K, order: seq<K>, groups: map<K, seq<Report>>) returns (sorted: map<K, seq<Report>>)
    requires Collected(reports, key, order, groups)
    ensures forall k :: k in sorted <==> k in groups
    ensures forall k :: k in sorted ==> Sorted(sorted[k]) && multiset(sorted[k]) == multiset(Filter(reports, key, k))
    ensures forall k, j :: k in sorted && 0 <= j < |sorted[k]| ==> key(sorted[k][j]) == k
    ensures forall i :: 0 <= i < |reports| ==> key(reports[i]) in sorted ==> reports[i] in sorted[key(reports[i])]
    ensures SumMs(order, sorted) == multiset(reports)
  {
    sorted := map k | k in groups :: SortReports(groups[k]);
    SortedGroupsFacts(reports, key, order, groups, sorted);
  }

  lemma SortedGroupsFacts<K(!new)>(reports: seq<Report>, key: Report -> K, order: seq<K>, groups: map<K, seq<Report>>, sorted: map<K, seq<Report>>)
    requires Collected(reports, key, order, groups)
    requires forall k :: k in sorted <==> k in groups
    requires forall k :: k in sorted ==> sorted[k] == SortReports(groups[k])
    ensures forall k :: k in sorted ==> Sorted(sorted[k]) && multiset(sorted[k]) == multiset(Filter(reports, key, k))
    ensures forall k, j :: k in sorted && 0 <= j < |sorted[k]| ==> key(sorted[k][j]) == k
    ensures forall i :: 0 <= i < |reports| ==> key(reports[i]) in sorted ==> reports[i] in sorted[key(reports[i])]
    ensures SumMs(order, sorted) == multiset(reports)
  {
    assert ListsFollow(reports, key, groups);
    forall k | k in sorted ensures Sorted(sorted[k]) && multiset(sorted[k]) == multiset(Filter(reports, key, k)) {
      assert groups[k] == Filter(reports, key, k);
    }
    assert HoldsAll(reports, order, groups);
    SumMsPointwise(order, groups, sorted);
    forall k, j | k in sorted && 0 <= j < |sorted[k]| ensures key(sorted[k][j]) == k {
      assert sorted[k][j] in multiset(groups[k]);
    }
    forall i | 0 <= i < |reports| && key(reports[i]) in sorted ensures reports[i] in sorted[key(reports[i])] {
      SortSameMembers(groups[key(reports[i])], reports[i]);
    }
  }
}
