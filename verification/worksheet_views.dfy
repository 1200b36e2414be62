/** The two helpers of the worksheets page: grouping reports by project, and
    picking the newest public report of a project. */
module WorksheetViews {
  import opened Wrappers
  import Seqs
  import opened Reports
  import opened Grouping

  function ProjectOf(r: Report): nat {
    r.project
  }

  /** `group_by_project` of the worksheets page: one sorted list per
      project, in the order projects first appear; every report lands in
      the list of its own project and in no other, and the lists together
      hold exactly the input reports. */
  method GroupByProject(reports: seq<Report>) returns (order: seq<nat>, groups: map<nat, seq<Report>>)
    ensures forall p :: p in groups <==> exists i :: 0 <= i < |reports| && reports[i].project == p
    ensures Seqs.Distinct(order) && forall p :: p in groups <==> p in order
    ensures forall p :: p in groups ==> Sorted(groups[p])
    ensures forall p, j :: p in groups && 0 <= j < |groups[p]| ==> groups[p][j].project == p
    ensures forall i :: 0 <= i < |reports| ==> reports[i].project in groups && reports[i] in groups[reports[i].project]
    ensures forall p :: p in groups ==> multiset(groups[p]) == multiset(Filter(reports, ProjectOf, p))
    ensures SumMs(order, groups) == multiset(reports) && |SumMs(order, groups)| == |reports|
  {
    order, groups := GroupBy(reports, ProjectOf);
  }

  /** `worksheets_open_html_latest`: pop the last public report of the
      project, then pop the others one by one, keeping a popped report only
      when it is strictly newer. `None` is the error popping an empty list
      raises. The result is the newest report, and among equally new ones
      the one latest in the list. */
  method LatestPublic(reports: seq<Report>) returns (latest: Option<Report>)
    ensures latest.None? <==> |reports| == 0
    ensures latest.Some? ==> forall i :: 0 <= i < |reports| ==> reports[i].tsCreated <= latest.value.tsCreated
    ensures latest.Some? ==> exists k :: 0 <= k < |reports| && reports[k] == latest.value
                                         && forall j :: k < j < |reports| ==> reports[j].tsCreated < latest.value.tsCreated
  {
    if |reports| == 0 {
      return None;
    }
    var rest := reports[..|reports| - 1];
    var report := reports[|reports| - 1];
    ghost var k := |reports| - 1;
    while |rest| > 0
      invariant rest == reports[..|rest|]
      invariant |rest| <= k < |reports| && reports[k] == report
      invariant forall j :: k < j < |reports| ==> reports[j].tsCreated < report.tsCreated
      invariant forall j :: |rest| <= j < |reports| ==> reports[j].tsCreated <= report.tsCreated
      decreases |rest|
    {
      var r := rest[|rest| - 1];
      rest := rest[..|rest| - 1];
      if r.tsCreated > report.tsCreated {
        report := r;
        k := |rest|;
      }
    }
    return Some(report);
  }
}
