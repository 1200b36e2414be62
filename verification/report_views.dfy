/** The two helpers of the reports page: grouping reports by project and
    name, and choosing the report `openreport_latest` opens. */
module ReportViews {
  import opened Wrappers
  import Seqs
  import opened Reports
  import opened Grouping

  /** The key reports are grouped under on the reports page. */
  function ProjectAndName(r: Report): (nat, string) {
    (r.project, r.name)
  }

  /** `group_by_project` of the reports page: one sorted list per distinct
      (project, name) pair, in the order the pairs first appear; every
      report lands in the list of its own pair and in no other, and the
      lists together hold exactly the input reports. */
  method GroupByProjectAndName(reports: seq<Report>) returns (order: seq<(nat, string)>, groups: map<(nat, string), seq<Report>>)
    ensures forall k :: k in groups <==> exists i :: 0 <= i < |reports| && (reports[i].project, reports[i].name) == k
    ensures Seqs.Distinct(order) && forall k :: k in groups <==> k in order
    ensures forall k :: k in groups ==> Sorted(groups[k])
    ensures forall k, j :: k in groups && 0 <= j < |groups[k]| ==> groups[k][j].project == k.0 && groups[k][j].name == k.1
    ensures forall i :: 0 <= i < |reports| ==> ProjectAndName(reports[i]) in groups && reports[i] in groups[ProjectAndName(reports[i])]
    ensures forall k :: k in groups ==> multiset(groups[k]) == multiset(Filter(reports, ProjectAndName, k))
    ensures SumMs(order, groups) == multiset(reports) && |SumMs(order, groups)| == |reports|
  {
    order, groups := GroupBy(reports, ProjectAndName);
  }

  /** `list.reverse()`. */
  function Reverse(s: seq<Report>): (r: seq<Report>)
    ensures |r| == |s|
    ensures forall i :: 0 <= i < |s| ==> r[i] == s[|s| - 1 - i]
  {
    if |s| == 0 then [] else Reverse(s[1..]) + [s[0]]
  }

  /** The first report of the list the user may see. */
  function FirstAllowed(s: seq<Report>, allowed: Report -> bool): (r: Option<Report>)
    ensures r.None? <==> forall i :: 0 <= i < |s| ==> !allowed(s[i])
    ensures r.Some? ==> exists i :: 0 <= i < |s| && s[i] == r.value && allowed(r.value)
                                    && forall j :: 0 <= j < i ==> !allowed(s[j])
  {
    if |s| == 0 then None
    else if allowed(s[0]) then Some(s[0])
    else
      var r := FirstAllowed(s[1..], allowed);
      assert forall i :: 1 <= i < |s| ==> s[i] == s[1..][i - 1];
      r
  }

  /** `openreport_latest`: sort the reports of the project with the given
      name, reverse them, and open the first one the user may see. `None`
      is the "not allowed" message. The permission check is a parameter. */
  function OpenLatest(reports: seq<Report>, allowed: Report -> bool): Option<Report> {
    FirstAllowed(Reverse(SortReports(reports)), allowed)
  }

  /** The report opened is one the user may see and ranks highest among
      those; nothing is opened exactly when the user may see none. */
  lemma OpenLatestIsGreatestAllowed(reports: seq<Report>, allowed: Report -> bool)
    ensures var r := OpenLatest(reports, allowed);
            && (r.None? <==> forall i :: 0 <= i < |reports| ==> !allowed(reports[i]))
            && (r.Some? ==> r.value in reports && allowed(r.value))
            && (r.Some? ==> forall i :: 0 <= i < |reports| && allowed(reports[i]) ==> reports[i].rank <= r.value.rank)
  {
    OpenLatestNone(reports, allowed);
    OpenLatestSome(reports, allowed);
  }

  lemma OpenLatestNone(reports: seq<Report>, allowed: Report -> bool)
    ensures OpenLatest(reports, allowed).None? <==> forall i :: 0 <= i < |reports| ==> !allowed(reports[i])
  {
    var t := SortReports(reports);
    LatestOfSorted(t, allowed);
    var r := OpenLatest(reports, allowed);
    if r.None? {
      forall i | 0 <= i < |reports| ensures !allowed(reports[i]) {
        SortSameMembers(reports, reports[i]);
        var m :| 0 <= m < |t| && t[m] == reports[i];
      }
    } else {
      SortSameMembers(reports, r.value);
      var i :| 0 <= i < |reports| && reports[i] == r.value;
    }
  }

  lemma OpenLatestSome(reports: seq<Report>, allowed: Report -> bool)
    ensures var r := OpenLatest(reports, allowed);
            r.Some? ==> && r.value in reports && allowed(r.value)
                        && forall i :: 0 <= i < |reports| && allowed(reports[i]) ==> reports[i].rank <= r.value.rank
  {
    var t := SortReports(reports);
    LatestOfSorted(t, allowed);
    var r := OpenLatest(reports, allowed);
    if r.Some? {
      SortSameMembers(reports, r.value);
      forall i | 0 <= i < |reports| && allowed(reports[i]) ensures reports[i].rank <= r.value.rank {
        SortSameMembers(reports, reports[i]);
        var m :| 0 <= m < |t| && t[m] == reports[i];
      }
    }
  }

  /** On a sorted list, the first allowed report of the reversed list ranks
      highest among the allowed ones. */
  lemma LatestOfSorted(t: seq<Report>, allowed: Report -> bool)
    requires Sorted(t)
    ensures var r := FirstAllowed(Reverse(t), allowed);
            && (r.None? <==> forall m :: 0 <= m < |t| ==> !allowed(t[m]))
            && (r.Some? ==> r.value in t && allowed(r.value))
            && (r.Some? ==> forall m :: 0 <= m < |t| && allowed(t[m]) ==> t[m].rank <= r.value.rank)
  {
    var v := Reverse(t);
    var r := FirstAllowed(v, allowed);
    if r.None? {
      NoneOfReversed(t, v, allowed);
    } else {
      var i :| 0 <= i < |v| && v[i] == r.value && allowed(r.value) && forall j :: 0 <= j < i ==> !allowed(v[j]);
      SomeOfReversed(t, v, allowed, i);
    }
  }

  /** When nothing in the reversed list is allowed, nothing in the list is. */
  lemma NoneOfReversed(t: seq<Report>, v: seq<Report>, allowed: Report -> bool)
    requires |v| == |t| && forall i :: 0 <= i < |t| ==> v[i] == t[|t| - 1 - i]
    requires forall i :: 0 <= i < |v| ==> !allowed(v[i])
    ensures forall m :: 0 <= m < |t| ==> !allowed(t[m])
  {
    forall m | 0 <= m < |t| ensures !allowed(t[m]) {
      assert v[|t| - 1 - m] == t[m];
    }
  }

  /** The first allowed report of the reversed sorted list ranks at least as
      high as every allowed report. */
  lemma SomeOfReversed(t: seq<Report>, v: seq<Report>, allowed: Report -> bool, i: int)
    requires Sorted(t)
    requires |v| == |t| && forall k :: 0 <= k < |t| ==> v[k] == t[|t| - 1 - k]
    requires 0 <= i < |v| && allowed(v[i]) && forall j :: 0 <= j < i ==> !allowed(v[j])
    ensures v[i] in t
    ensures forall m :: 0 <= m < |t| && allowed(t[m]) ==> t[m].rank <= v[i].rank
  {
    var top := |t| - 1 - i;
    assert v[i] == t[top];
    forall m | 0 <= m < |t| && allowed(t[m]) ensures t[m].rank <= v[i].rank {
      assert v[|t| - 1 - m] == t[m];
      assert m <= top;
    }
  }
}
