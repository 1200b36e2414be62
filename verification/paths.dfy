/** String helpers the spawner uses to build mount paths: POSIX path joining
    and the host-name rewriting applied to sync and repository endpoints. */
module Paths {

  /** Two-argument POSIX path join: an absolute second component replaces
      the first; a separator is inserted only when the first component is
      non-empty and does not already end with one. */
  function Join(a: string, b: string): (r: string)
    ensures |b| > 0 && b[0] == '/' ==> r == b
    ensures (|b| == 0 || b[0] != '/') && |a| > 0 && a[|a| - 1] != '/' ==> r == a + "/" + b
    ensures (|b| == 0 || b[0] != '/') && (|a| == 0 || a[|a| - 1] == '/') ==> r == a + b
  {
    if |b| > 0 && b[0] == '/' then b
    else if |a| == 0 || a[|a| - 1] == '/' then a + b
    else a + "/" + b
  }

  /** A path that can be joined onto: non-empty and without a trailing separator. */
  predicate Root(s: string) {
    |s| > 0 && s[|s| - 1] != '/'
  }

  /** A relative component: a root that does not start with a separator either. */
  predicate Segment(s: string) {
    Root(s) && s[0] != '/'
  }

  /** Joining a relative component onto a root inserts exactly one separator
      and yields a root again. */
  lemma JoinSegment(a: string, b: string)
    requires Root(a) && Segment(b)
    ensures Join(a, b) == a + "/" + b
    ensures Root(Join(a, b))
  {
    var r := a + "/" + b;
    assert r[|r| - 1] == b[|b| - 1];
  }

  /** Every `.` of a host name replaced by `_` (`str.replace('.', '_')`). */
  function Underscored(host: string): (r: string)
    ensures |r| == |host|
    ensures forall i :: 0 <= i < |host| ==> r[i] == (if host[i] == '.' then '_' else host[i])
  {
    if |host| == 0 then []
    else [if host[0] == '.' then '_' else host[0]] + Underscored(host[1..])
  }
}
