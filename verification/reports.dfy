/** Reports as the report views see them, and the order `list.sort()` puts
    them in. The report model's comparison is not part of this model: it is
    abstracted as an integer `rank`, and sorting is Python's stable sort on
    that rank. */
module Reports {

  datatype Report = Report(reportId: nat, project: nat, name: string, tsCreated: int, rank: int)

  /** Ascending by rank. */
  predicate Sorted(s: seq<Report>) {
    forall i, j :: 0 <= i < j < |s| ==> s[i].rank <= s[j].rank
  }

  /** Insert `x` before the first element of a sorted list that ranks at
      least as high. */
  function Insert(x: Report, s: seq<Report>): (r: seq<Report>)
    requires Sorted(s)
    ensures Sorted(r)
    ensures multiset(r) == multiset(s) + multiset{x}
    ensures |r| == |s| + 1
  {
    if |s| == 0 then [x]
    else if x.rank <= s[0].rank then [x] + s
    else
      var rest := Insert(x, s[1..]);
      ConsSorted(x, s, rest);
      [s[0]] + rest
  }

  lemma ConsSorted(x: Report, s: seq<Report>, rest: seq<Report>)
    requires Sorted(s) && |s| > 0 && s[0].rank < x.rank
    requires Sorted(rest) && multiset(rest) == multiset(s[1..]) + multiset{x}
    ensures Sorted([s[0]] + rest)
    ensures multiset([s[0]] + rest) == multiset(s) + multiset{x}
  {
    assert s == [s[0]] + s[1..];
    forall j | 0 <= j < |rest| ensures s[0].rank <= rest[j].rank {
      assert rest[j] in multiset(rest);
      if rest[j] != x {
        assert rest[j] in multiset(s[1..]);
        var m :| 0 <= m < |s[1..]| && s[1..][m] == rest[j];
        assert s[m + 1] == rest[j];
      }
    }
  }

  /** `list.sort()` on reports: a stable sort by rank. */
  function SortReports(s: seq<Report>): (r: seq<Report>)
    ensures Sorted(r)
    ensures multiset(r) == multiset(s)
    ensures |r| == |s|
  {
    if |s| == 0 then []
    else
      assert s == [s[0]] + s[1..];
      Insert(s[0], SortReports(s[1..]))
  }

  /** Sorting a list that is already in order leaves it as it is. */
  lemma {:induction false} SortSortedIdentity(s: seq<Report>)
    requires Sorted(s)
    ensures SortReports(s) == s
  {
    if |s| > 0 {
      SortSortedIdentity(s[1..]);
    }
  }

  /** Sorting is idempotent. */
  lemma SortIdempotent(s: seq<Report>)
    ensures SortReports(SortReports(s)) == SortReports(s)
  {
    SortSortedIdentity(SortReports(s));
  }

  /** The reports of one rank, in list order. */
  function OfRank(s: seq<Report>, k: int): seq<Report> {
    if |s| == 0 then []
    else (if s[0].rank == k then [s[0]] else []) + OfRank(s[1..], k)
  }

  /** Inserting goes in front of every report of equal rank, so among the
      reports of one rank `x` comes first and the others keep their order. */
  lemma {:induction false} InsertOfRank(x: Report, s: seq<Report>, k: int)
    requires Sorted(s)
    ensures OfRank(Insert(x, s), k) == (if x.rank == k then [x] else []) + OfRank(s, k)
    decreases |s|
  {
    if |s| > 0 && s[0].rank < x.rank {
      InsertOfRank(x, s[1..], k);
      PassedOfRank(x, s[0], s[1..], Insert(x, s[1..]), k);
      assert [s[0]] + s[1..] == s;
    } else if |s| > 0 {
      OfRankCons(x, s, k);
    }
  }

  /** The inductive step of `InsertOfRank`, when `x` moves past a report
      `y` of lower rank. */
  lemma PassedOfRank(x: Report, y: Report, tail: seq<Report>, rest: seq<Report>, k: int)
    requires y.rank < x.rank
    requires OfRank(rest, k) == (if x.rank == k then [x] else []) + OfRank(tail, k)
    ensures OfRank([y] + rest, k) == (if x.rank == k then [x] else []) + OfRank([y] + tail, k)
  {
    OfRankCons(y, rest, k);
    OfRankCons(y, tail, k);
  }

  lemma OfRankCons(y: Report, t: seq<Report>, k: int)
    ensures OfRank([y] + t, k) == (if y.rank == k then [y] else []) + OfRank(t, k)
  {
    assert ([y] + t)[1..] == t;
  }

  /** The sort is stable: the reports of each rank appear in the sorted list
      in the order they had in the input. */
  lemma {:induction false} SortStable(s: seq<Report>, k: int)
    ensures OfRank(SortReports(s), k) == OfRank(s, k)
    decreases |s|
  {
    if |s| > 0 {
      SortStable(s[1..], k);
      InsertOfRank(s[0], SortReports(s[1..]), k);
    }
  }

  /** A sorted permutation holds the same reports, each as often. */
  lemma SortSameMembers(s: seq<Report>, x: Report)
    ensures x in SortReports(s) <==> x in s
  {
    assert x in multiset(SortReports(s)) <==> x in multiset(s);
  }
}
