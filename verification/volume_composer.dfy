/** Derives the volume mounts of a service's container and the claim
    declarations of its pod from the image flags and the service bindings. */
module VolumeComposer {
  import opened KubeModel
  import Paths

  /** The user's home directory, mounted read-write at `<mount point>/<username>`. */
  function HomeMount(cfg: Config, username: string): Mount {
    Mount(HomeVolume, Paths.Join(cfg.mountPoint, username), username, false)
  }

  function ProjectMount(cfg: Config, project: string): Mount {
    Mount(ProjectVolume, Paths.Join(Paths.Join(cfg.mountPoint, cfg.projectSubdir), project), project, false)
  }

  function ReportMount(cfg: Config, project: string): Mount {
    Mount(ReportVolume, Paths.Join(Paths.Join(cfg.mountPoint, cfg.reportSubdir), project), project, true)
  }

  /** The writable report-preparation area of a project, kept on the cache claim. */
  function PrepareMount(cfg: Config, project: string): Mount {
    Mount(CacheVolume, Paths.Join(Paths.Join(cfg.mountPoint, cfg.reportPrepareSubdir), project), project, false)
  }

  function SyncMount(cfg: Config, username: string, lib: SyncedLibrary): Mount {
    var server := Paths.Underscored(lib.syncNetloc);
    Mount(CacheVolume,
          Paths.Join(Paths.Join(cfg.mountPoint, "synchron"), lib.libraryName + "-" + server),
          Paths.Join(Paths.Join(Paths.Join(Paths.Join("fs", username), server), "synchron"), lib.libraryName),
          false)
  }

  function RepoMount(cfg: Config, username: string, repo: RepoClone): Mount {
    var server := Paths.Underscored(repo.repoNetloc);
    Mount(CacheVolume,
          Paths.Join(Paths.Join(cfg.mountPoint, "git"), repo.cloneFolder + "-" + server),
          Paths.Join(Paths.Join(Paths.Join("git", username), server), repo.cloneFolder),
          false)
  }

  /** One project mount per bound project, in binding order. */
  function ProjectMounts(cfg: Config, projects: seq<string>): (r: seq<Mount>)
    ensures |r| == |projects|
    ensures forall i :: 0 <= i < |projects| ==> r[i] == ProjectMount(cfg, projects[i])
  {
    if |projects| == 0 then [] else [ProjectMount(cfg, projects[0])] + ProjectMounts(cfg, projects[1..])
  }

  /** Per bound project, its read-only report mount followed by its preparation mount. */
  function ReportMounts(cfg: Config, projects: seq<string>): (r: seq<Mount>)
    ensures |r| == 2 * |projects|
  {
    if |projects| == 0 then []
    else [ReportMount(cfg, projects[0]), PrepareMount(cfg, projects[0])] + ReportMounts(cfg, projects[1..])
  }

  lemma {:induction false} ReportMountsAt(cfg: Config, projects: seq<string>, i: nat)
    requires i < |projects|
    ensures ReportMounts(cfg, projects)[2 * i] == ReportMount(cfg, projects[i])
    ensures ReportMounts(cfg, projects)[2 * i + 1] == PrepareMount(cfg, projects[i])
  {
    if i > 0 {
      ReportMountsAt(cfg, projects[1..], i - 1);
    }
  }

  /** The report mounts alone, one per project. */
  function ReportOnlyMounts(cfg: Config, projects: seq<string>): (r: seq<Mount>)
    ensures |r| == |projects|
    ensures forall i :: 0 <= i < |projects| ==> r[i] == ReportMount(cfg, projects[i])
  {
    if |projects| == 0 then [] else [ReportMount(cfg, projects[0])] + ReportOnlyMounts(cfg, projects[1..])
  }

  /** The preparation mounts alone, one per project. */
  function PrepareMounts(cfg: Config, projects: seq<string>): (r: seq<Mount>)
    ensures |r| == |projects|
    ensures forall i :: 0 <= i < |projects| ==> r[i] == PrepareMount(cfg, projects[i])
  {
    if |projects| == 0 then [] else [PrepareMount(cfg, projects[0])] + PrepareMounts(cfg, projects[1..])
  }

  function SyncMounts(cfg: Config, username: string, libs: seq<SyncedLibrary>): (r: seq<Mount>)
    ensures |r| == |libs|
    ensures forall i :: 0 <= i < |libs| ==> r[i] == SyncMount(cfg, username, libs[i])
  {
    if |libs| == 0 then [] else [SyncMount(cfg, username, libs[0])] + SyncMounts(cfg, username, libs[1..])
  }

  function RepoMounts(cfg: Config, username: string, repos: seq<RepoClone>): (r: seq<Mount>)
    ensures |r| == |repos|
    ensures forall i :: 0 <= i < |repos| ==> r[i] == RepoMount(cfg, username, repos[i])
  {
    if |repos| == 0 then [] else [RepoMount(cfg, username, repos[0])] + RepoMounts(cfg, username, repos[1..])
  }

  function HomeSegment(cfg: Config, svc: Service): seq<Mount> {
    if svc.image.requireHome then [HomeMount(cfg, svc.username)] else []
  }

  function ProjectSegment(cfg: Config, svc: Service): seq<Mount> {
    if svc.image.mountProject then ProjectMounts(cfg, svc.projects) else []
  }

  function ReportSegment(cfg: Config, svc: Service): seq<Mount> {
    if svc.image.mountReport then ReportMounts(cfg, svc.projects) else []
  }

  /** The container's mount list: home, projects, reports, synced libraries, repositories. */
  function Mounts(cfg: Config, svc: Service): seq<Mount> {
    HomeSegment(cfg, svc) + ProjectSegment(cfg, svc) + ReportSegment(cfg, svc)
    + SyncMounts(cfg, svc.username, svc.syncedLibraries) + RepoMounts(cfg, svc.username, svc.repos)
  }

  /** The `has_project`, `has_report` and `has_cache` flags: set by the first
      iteration of a loop that emits a mount on that claim. */
  predicate HasProject(svc: Service) {
    svc.image.mountProject && |svc.projects| > 0
  }

  predicate HasReport(svc: Service) {
    svc.image.mountReport && |svc.projects| > 0
  }

  predicate HasCache(svc: Service) {
    HasReport(svc) || |svc.syncedLibraries| > 0 || |svc.repos| > 0
  }

  /** The pod's claim declarations: home when the image asks for it, then
      project, report and cache as their flags say. */
  function Claims(svc: Service): seq<Volume> {
    (if svc.image.requireHome then [HomeClaim] else [])
    + (if HasProject(svc) then [ProjectClaim] else [])
    + (if HasReport(svc) then [ReportClaim] else [])
    + (if HasCache(svc) then [CacheClaim] else [])
  }

  /** The mounts on the named claim, in list order. */
  function Named(ms: seq<Mount>, name: string): seq<Mount> {
    if |ms| == 0 then []
    else (if ms[0].name == name then [ms[0]] else []) + Named(ms[1..], name)
  }

  lemma {:induction false} NamedConcat(a: seq<Mount>, b: seq<Mount>, name: string)
    ensures Named(a + b, name) == Named(a, name) + Named(b, name)
    decreases |a|
  {
    if |a| == 0 {
      assert a + b == b;
    } else {
      assert (a + b)[0] == a[0];
      assert (a + b)[1..] == a[1..] + b;
      NamedConcat(a[1..], b, name);
      var head := if a[0].name == name then [a[0]] else [];
      assert Named(a + b, name) == head + Named(a[1..] + b, name);
      assert head + (Named(a[1..], name) + Named(b, name)) == (head + Named(a[1..], name)) + Named(b, name);
    }
  }

  /** A list whose mounts all sit on one claim is kept whole by that claim's
      filter and emptied by every other. */
  lemma {:induction false} NamedUniform(ms: seq<Mount>, on: string, name: string)
    requires forall i :: 0 <= i < |ms| ==> ms[i].name == on
    ensures Named(ms, name) == if name == on then ms else []
    decreases |ms|
  {
    if |ms| > 0 {
      NamedUniform(ms[1..], on, name);
    }
  }

  lemma {:induction false} NamedReportMounts(cfg: Config, projects: seq<string>, name: string)
    ensures Named(ReportMounts(cfg, projects), name) ==
              if name == ReportVolume then ReportOnlyMounts(cfg, projects)
              else if name == CacheVolume then PrepareMounts(cfg, projects)
              else []
    decreases |projects|
  {
    if |projects| > 0 {
      var p := projects[0];
      var head := [ReportMount(cfg, p), PrepareMount(cfg, p)];
      assert ReportMounts(cfg, projects) == head + ReportMounts(cfg, projects[1..]);
      assert ReportOnlyMounts(cfg, projects) == [ReportMount(cfg, p)] + ReportOnlyMounts(cfg, projects[1..]);
      assert PrepareMounts(cfg, projects) == [PrepareMount(cfg, p)] + PrepareMounts(cfg, projects[1..]);
      NamedConcat(head, ReportMounts(cfg, projects[1..]), name);
      NamedPair(cfg, p, name);
      NamedReportMounts(cfg, projects[1..], name);
    }
  }

  lemma NamedPair(cfg: Config, p: string, name: string)
    ensures Named([ReportMount(cfg, p), PrepareMount(cfg, p)], name) ==
              if name == ReportVolume then [ReportMount(cfg, p)]
              else if name == CacheVolume then [PrepareMount(cfg, p)]
              else []
  {
    var r, q := ReportMount(cfg, p), PrepareMount(cfg, p);
    assert [r, q][1..] == [q];
    assert [q][1..] == [];
    assert Named([q], name) == (if q.name == name then [q] else []) + Named([], name);
    assert Named([r, q], name) == (if r.name == name then [r] else []) + Named([q], name);
  }

  /** Every report-list mount is on the report claim or the cache claim. */
  lemma {:induction false} ReportMountsClaims(cfg: Config, projects: seq<string>)
    ensures forall j :: 0 <= j < |ReportMounts(cfg, projects)| ==>
              ReportMounts(cfg, projects)[j].name in {ReportVolume, CacheVolume}
    decreases |projects|
  {
    if |projects| > 0 {
      ReportMountsClaims(cfg, projects[1..]);
    }
  }

  lemma {:induction false} NamedPresent(ms: seq<Mount>, name: string)
    ensures Named(ms, name) != [] <==> exists i :: 0 <= i < |ms| && ms[i].name == name
    decreases |ms|
  {
    if |ms| > 0 {
      NamedPresent(ms[1..], name);
      if ms[0].name != name && exists i :: 0 <= i < |ms| && ms[i].name == name {
        var i :| 0 <= i < |ms| && ms[i].name == name;
        assert ms[1..][i - 1].name == name;
      }
    }
  }

  /** Where the parts of a five-way concatenation sit. */
  lemma FiveIndex(a: seq<Mount>, b: seq<Mount>, c: seq<Mount>, d: seq<Mount>, e: seq<Mount>, i: int)
    requires 0 <= i < |a + b + c + d + e|
    ensures var s := a + b + c + d + e;
      && (i < |a| ==> s[i] == a[i])
      && (|a| <= i < |a| + |b| ==> s[i] == b[i - |a|])
      && (|a| + |b| <= i < |a| + |b| + |c| ==> s[i] == c[i - |a| - |b|])
      && (|a| + |b| + |c| <= i < |a| + |b| + |c| + |d| ==> s[i] == d[i - |a| - |b| - |c|])
      && (|a| + |b| + |c| + |d| <= i ==> s[i] == e[i - |a| - |b| - |c| - |d|])
  {
  }

  lemma NamedFive(a: seq<Mount>, b: seq<Mount>, c: seq<Mount>, d: seq<Mount>, e: seq<Mount>, name: string)
    ensures Named(a + b + c + d + e, name) == Named(a, name) + Named(b, name) + Named(c, name) + Named(d, name) + Named(e, name)
  {
    NamedConcat(a + b + c + d, e, name);
    NamedConcat(a + b + c, d, name);
    NamedConcat(a + b, c, name);
    NamedConcat(a, b, name);
  }

  lemma NamedHome(cfg: Config, svc: Service, name: string)
    ensures Named(HomeSegment(cfg, svc), name) == if name == HomeVolume then HomeSegment(cfg, svc) else []
  {
    NamedUniform(HomeSegment(cfg, svc), HomeVolume, name);
  }

  lemma NamedProject(cfg: Config, svc: Service, name: string)
    ensures Named(ProjectSegment(cfg, svc), name) == if name == ProjectVolume then ProjectSegment(cfg, svc) else []
  {
    NamedUniform(ProjectSegment(cfg, svc), ProjectVolume, name);
  }

  lemma NamedReport(cfg: Config, svc: Service, name: string)
    ensures Named(ReportSegment(cfg, svc), name) ==
              if !svc.image.mountReport then []
              else if name == ReportVolume then ReportOnlyMounts(cfg, svc.projects)
              else if name == CacheVolume then PrepareMounts(cfg, svc.projects)
              else []
  {
    NamedReportMounts(cfg, svc.projects, name);
  }

  lemma NamedSync(cfg: Config, svc: Service, name: string)
    ensures var ms := SyncMounts(cfg, svc.username, svc.syncedLibraries);
            Named(ms, name) == if name == CacheVolume then ms else []
  {
    NamedUniform(SyncMounts(cfg, svc.username, svc.syncedLibraries), CacheVolume, name);
  }

  lemma NamedRepo(cfg: Config, svc: Service, name: string)
    ensures var ms := RepoMounts(cfg, svc.username, svc.repos);
            Named(ms, name) == if name == CacheVolume then ms else []
  {
    NamedUniform(RepoMounts(cfg, svc.username, svc.repos), CacheVolume, name);
  }

  /** Filters every segment of the mount list by one claim name. */
  lemma NamedAll(cfg: Config, svc: Service, name: string)
    ensures Named(Mounts(cfg, svc), name) ==
              Named(HomeSegment(cfg, svc), name) + Named(ProjectSegment(cfg, svc), name) + Named(ReportSegment(cfg, svc), name)
              + Named(SyncMounts(cfg, svc.username, svc.syncedLibraries), name) + Named(RepoMounts(cfg, svc.username, svc.repos), name)
    ensures Named(HomeSegment(cfg, svc), name) == if name == HomeVolume then HomeSegment(cfg, svc) else []
    ensures Named(ProjectSegment(cfg, svc), name) == if name == ProjectVolume then ProjectSegment(cfg, svc) else []
    ensures Named(ReportSegment(cfg, svc), name) ==
              if !svc.image.mountReport then []
              else if name == ReportVolume then ReportOnlyMounts(cfg, svc.projects)
              else if name == CacheVolume then PrepareMounts(cfg, svc.projects)
              else []
    ensures var ms := SyncMounts(cfg, svc.username, svc.syncedLibraries);
            Named(ms, name) == if name == CacheVolume then ms else []
    ensures var ms := RepoMounts(cfg, svc.username, svc.repos);
            Named(ms, name) == if name == CacheVolume then ms else []
  {
    NamedFive(HomeSegment(cfg, svc), ProjectSegment(cfg, svc), ReportSegment(cfg, svc),
              SyncMounts(cfg, svc.username, svc.syncedLibraries), RepoMounts(cfg, svc.username, svc.repos), name);
    NamedHome(cfg, svc, name);
    NamedProject(cfg, svc, name);
    NamedReport(cfg, svc, name);
    NamedSync(cfg, svc, name);
    NamedRepo(cfg, svc, name);
  }

  lemma OnlyFirst(a: seq<Mount>, b: seq<Mount>, c: seq<Mount>, d: seq<Mount>, e: seq<Mount>)
    requires b == [] && c == [] && d == [] && e == []
    ensures a + b + c + d + e == a
  {
  }

  lemma OnlySecond(a: seq<Mount>, b: seq<Mount>, c: seq<Mount>, d: seq<Mount>, e: seq<Mount>)
    requires a == [] && c == [] && d == [] && e == []
    ensures a + b + c + d + e == b
  {
  }

  lemma OnlyThird(a: seq<Mount>, b: seq<Mount>, c: seq<Mount>, d: seq<Mount>, e: seq<Mount>)
    requires a == [] && b == [] && d == [] && e == []
    ensures a + b + c + d + e == c
  {
  }

  /** The home mount is emitted iff the image asks for one, and then it
      comes first in the list. */
  lemma HomeMountFirst(cfg: Config, svc: Service)
    ensures Named(Mounts(cfg, svc), HomeVolume) == if svc.image.requireHome then [HomeMount(cfg, svc.username)] else []
    ensures svc.image.requireHome ==> Mounts(cfg, svc)[0] == HomeMount(cfg, svc.username)
  {
    NamedAll(cfg, svc, HomeVolume);
    OnlyFirst(Named(HomeSegment(cfg, svc), HomeVolume), Named(ProjectSegment(cfg, svc), HomeVolume), Named(ReportSegment(cfg, svc), HomeVolume),
              Named(SyncMounts(cfg, svc.username, svc.syncedLibraries), HomeVolume), Named(RepoMounts(cfg, svc.username, svc.repos), HomeVolume));
  }

  /** One project mount per bound project, in binding order, when the image
      mounts projects; none otherwise. */
  lemma ProjectMountsInOrder(cfg: Config, svc: Service)
    ensures Named(Mounts(cfg, svc), ProjectVolume) == if svc.image.mountProject then ProjectMounts(cfg, svc.projects) else []
  {
    NamedAll(cfg, svc, ProjectVolume);
    OnlySecond(Named(HomeSegment(cfg, svc), ProjectVolume), Named(ProjectSegment(cfg, svc), ProjectVolume), Named(ReportSegment(cfg, svc), ProjectVolume),
               Named(SyncMounts(cfg, svc.username, svc.syncedLibraries), ProjectVolume), Named(RepoMounts(cfg, svc.username, svc.repos), ProjectVolume));
  }

  /** One read-only report mount per bound project, in binding order, when
      the image mounts reports; none otherwise. */
  lemma ReportMountsInOrder(cfg: Config, svc: Service)
    ensures Named(Mounts(cfg, svc), ReportVolume) == if svc.image.mountReport then ReportOnlyMounts(cfg, svc.projects) else []
  {
    NamedAll(cfg, svc, ReportVolume);
    OnlyThird(Named(HomeSegment(cfg, svc), ReportVolume), Named(ProjectSegment(cfg, svc), ReportVolume), Named(ReportSegment(cfg, svc), ReportVolume),
              Named(SyncMounts(cfg, svc.username, svc.syncedLibraries), ReportVolume), Named(RepoMounts(cfg, svc.username, svc.repos), ReportVolume));
  }

  /** The cache claim carries, in order, the preparation mount of every bound
      project when the image mounts reports, one mount per synced library and
      one per repository. */
  lemma CacheMountsInOrder(cfg: Config, svc: Service)
    ensures Named(Mounts(cfg, svc), CacheVolume) ==
              (if svc.image.mountReport then PrepareMounts(cfg, svc.projects) else [])
              + SyncMounts(cfg, svc.username, svc.syncedLibraries) + RepoMounts(cfg, svc.username, svc.repos)
  {
    NamedAll(cfg, svc, CacheVolume);
    EmptyPrefix(Named(ReportSegment(cfg, svc), CacheVolume), SyncMounts(cfg, svc.username, svc.syncedLibraries), RepoMounts(cfg, svc.username, svc.repos));
  }

  lemma EmptyPrefix(c: seq<Mount>, d: seq<Mount>, e: seq<Mount>)
    ensures [] + [] + c + d + e == c + d + e
  {
  }

  /** Every mount is on one of the four claims, and every project mount
      precedes every report mount. */
  lemma ProjectsBeforeReports(cfg: Config, svc: Service)
    ensures var ms := Mounts(cfg, svc);
            && (forall i :: 0 <= i < |ms| ==> ms[i].name in {HomeVolume, ProjectVolume, ReportVolume, CacheVolume})
            && (forall i, j :: 0 <= i < |ms| && 0 <= j < |ms| && ms[i].name == ProjectVolume && ms[j].name == ReportVolume ==> i < j)
  {
    var home, proj, rep := HomeSegment(cfg, svc), ProjectSegment(cfg, svc), ReportSegment(cfg, svc);
    var sync, repo := SyncMounts(cfg, svc.username, svc.syncedLibraries), RepoMounts(cfg, svc.username, svc.repos);
    var ms := Mounts(cfg, svc);
    ReportMountsClaims(cfg, svc.projects);
    var h, p, q, l := |home|, |proj|, |rep|, |sync|;
    forall i | 0 <= i < |ms|
      ensures ms[i].name in {HomeVolume, ProjectVolume, ReportVolume, CacheVolume}
      ensures ms[i].name == ProjectVolume ==> i < h + p
      ensures ms[i].name == ReportVolume ==> h + p <= i
    {
      FiveIndex(home, proj, rep, sync, repo, i);
      if i < h {
        assert ms[i].name == HomeVolume;
      } else if i < h + p {
        assert ms[i].name == ProjectVolume;
      } else if i < h + p + q {
        assert ms[i].name in {ReportVolume, CacheVolume};
      } else if i < h + p + q + l {
        assert ms[i].name == CacheVolume;
      } else {
        assert ms[i].name == CacheVolume;
      }
    }
  }

  /** The claim declarations match the mounts: a claim is declared exactly
      when some mount uses it, so every mount refers to a declared volume,
      and no claim is declared twice. */
  lemma ClaimsMatchMounts(cfg: Config, svc: Service)
    ensures ClaimNames(Claims(svc)) == MountNames(Mounts(cfg, svc))
    ensures forall i, j :: 0 <= i < j < |Claims(svc)| ==> Claims(svc)[i].name != Claims(svc)[j].name
  {
    var ms := Mounts(cfg, svc);
    forall name
      ensures name in ClaimNames(Claims(svc)) <==> name in MountNames(ms)
    {
      MountNamesPresent(ms, name);
      if name in {HomeVolume, ProjectVolume, ReportVolume, CacheVolume} {
        ClaimDeclaredIffMounted(cfg, svc, name);
      } else {
        ClaimNameMember(svc, name);
        UnknownNameUnmounted(cfg, svc, name);
      }
    }
    ClaimsDistinct(svc);
  }

  lemma UnknownNameUnmounted(cfg: Config, svc: Service, name: string)
    requires name !in {HomeVolume, ProjectVolume, ReportVolume, CacheVolume}
    ensures Named(Mounts(cfg, svc), name) == []
  {
    ProjectsBeforeReports(cfg, svc);
    NamedPresent(Mounts(cfg, svc), name);
  }

  lemma ClaimDeclaredIffMounted(cfg: Config, svc: Service, name: string)
    requires name in {HomeVolume, ProjectVolume, ReportVolume, CacheVolume}
    ensures name in ClaimNames(Claims(svc)) <==> Named(Mounts(cfg, svc), name) != []
  {
    ClaimNameMember(svc, name);
    if name == HomeVolume {
      HomeDeclaredIffMounted(cfg, svc);
    } else if name == ProjectVolume {
      ProjectDeclaredIffMounted(cfg, svc);
    } else if name == ReportVolume {
      ReportDeclaredIffMounted(cfg, svc);
    } else {
      CacheDeclaredIffMounted(cfg, svc);
    }
  }

  lemma ClaimNameMember(svc: Service, name: string)
    ensures name in ClaimNames(Claims(svc)) <==>
              (name == HomeVolume && svc.image.requireHome) || (name == ProjectVolume && HasProject(svc))
              || (name == ReportVolume && HasReport(svc)) || (name == CacheVolume && HasCache(svc))
  {
    ClaimNamesOf(svc);
  }

  lemma HomeDeclaredIffMounted(cfg: Config, svc: Service)
    ensures svc.image.requireHome <==> Named(Mounts(cfg, svc), HomeVolume) != []
  {
    HomeMountFirst(cfg, svc);
  }

  lemma ProjectDeclaredIffMounted(cfg: Config, svc: Service)
    ensures HasProject(svc) <==> Named(Mounts(cfg, svc), ProjectVolume) != []
  {
    ProjectMountsInOrder(cfg, svc);
  }

  lemma ReportDeclaredIffMounted(cfg: Config, svc: Service)
    ensures HasReport(svc) <==> Named(Mounts(cfg, svc), ReportVolume) != []
  {
    ReportMountsInOrder(cfg, svc);
  }

  lemma CacheDeclaredIffMounted(cfg: Config, svc: Service)
    ensures HasCache(svc) <==> Named(Mounts(cfg, svc), CacheVolume) != []
  {
    CacheMountsInOrder(cfg, svc);
  }

  function MountNames(ms: seq<Mount>): set<string> {
    set m | m in ms :: m.name
  }

  function ClaimNames(vs: seq<Volume>): set<string> {
    set v | v in vs :: v.name
  }

  lemma MountNamesPresent(ms: seq<Mount>, name: string)
    ensures name in MountNames(ms) <==> Named(ms, name) != []
  {
    NamedPresent(ms, name);
    if name in MountNames(ms) {
      var m :| m in ms && m.name == name;
      var i :| 0 <= i < |ms| && ms[i] == m;
    }
  }

  lemma ClaimNamesOf(svc: Service)
    ensures ClaimNames(Claims(svc)) ==
              (if svc.image.requireHome then {HomeVolume} else {})
              + (if HasProject(svc) then {ProjectVolume} else {})
              + (if HasReport(svc) then {ReportVolume} else {})
              + (if HasCache(svc) then {CacheVolume} else {})
  {
  }

  lemma ClaimsDistinct(svc: Service)
    ensures forall i, j :: 0 <= i < j < |Claims(svc)| ==> Claims(svc)[i].name != Claims(svc)[j].name
  {
  }

  /** With report mounting on, the report mount of the k-th bound project is
      immediately followed by its preparation mount, right after the home
      and project mounts. */
  lemma ReportPairAt(cfg: Config, svc: Service, k: nat)
    requires svc.image.mountReport && k < |svc.projects|
    ensures var o := |HomeSegment(cfg, svc)| + |ProjectSegment(cfg, svc)|;
            && o + 2 * k + 1 < |Mounts(cfg, svc)|
            && Mounts(cfg, svc)[o + 2 * k] == ReportMount(cfg, svc.projects[k])
            && Mounts(cfg, svc)[o + 2 * k + 1] == PrepareMount(cfg, svc.projects[k])
  {
    ReportSlots(cfg, svc, k);
    ReportMountsAt(cfg, svc.projects, k);
  }

  /** Positions 2k and 2k+1 of the report list sit right after the home and project mounts. */
  lemma ReportSlots(cfg: Config, svc: Service, k: nat)
    requires svc.image.mountReport && k < |svc.projects|
    ensures var o := |HomeSegment(cfg, svc)| + |ProjectSegment(cfg, svc)|;
            && o + 2 * k + 1 < |Mounts(cfg, svc)|
            && Mounts(cfg, svc)[o + 2 * k] == ReportMounts(cfg, svc.projects)[2 * k]
            && Mounts(cfg, svc)[o + 2 * k + 1] == ReportMounts(cfg, svc.projects)[2 * k + 1]
  {
    var home, proj, rep := HomeSegment(cfg, svc), ProjectSegment(cfg, svc), ReportSegment(cfg, svc);
    var sync, repo := SyncMounts(cfg, svc.username, svc.syncedLibraries), RepoMounts(cfg, svc.username, svc.repos);
    assert rep == ReportMounts(cfg, svc.projects);
    PairInThird(Mounts(cfg, svc), home, proj, rep, sync, repo, 2 * k);
  }

  lemma PairInThird(s: seq<Mount>, a: seq<Mount>, b: seq<Mount>, c: seq<Mount>, d: seq<Mount>, e: seq<Mount>, j: nat)
    requires s == a + b + c + d + e && j + 1 < |c|
    ensures |a| + |b| + j + 1 < |s|
    ensures s[|a| + |b| + j] == c[j] && s[|a| + |b| + j + 1] == c[j + 1]
  {
  }

  /** For a plain mount point and user name the home mount sits at
      `<mount point>/<username>`. */
  lemma HomeMountShape(cfg: Config, username: string)
    requires Paths.Root(cfg.mountPoint) && Paths.Segment(username)
    ensures HomeMount(cfg, username).mountPath == cfg.mountPoint + "/" + username
    ensures HomeMount(cfg, username).subPath == username
    ensures !HomeMount(cfg, username).readOnly
  {
    Paths.JoinSegment(cfg.mountPoint, username);
  }

  /** With no spawner settings every path falls back to its default, so the
      home mount of a plain user name sits at `/mnt/<username>`. */
  lemma DefaultHomeMount(username: string)
    requires Paths.Segment(username)
    ensures ConfigFrom(map[]) == Config("/mnt", "project", "report", "report_prepare")
    ensures HomeMount(ConfigFrom(map[]), username).mountPath == "/mnt/" + username
    ensures HomeMount(ConfigFrom(map[]), username).subPath == username
  {
    HomeMountShape(ConfigFrom(map[]), username);
  }

  /** A network location as taken from a URL: non-empty and free of separators. */
  predicate Netloc(host: string) {
    |host| > 0 && forall i :: 0 <= i < |host| ==> host[i] != '/'
  }

  /** The host rewriting keeps a network location plain and removes every dot. */
  lemma UnderscoredNetloc(host: string)
    requires Netloc(host)
    ensures Paths.Segment(Paths.Underscored(host))
    ensures forall i :: 0 <= i < |Paths.Underscored(host)| ==> Paths.Underscored(host)[i] != '.'
  {
    var u := Paths.Underscored(host);
    assert u[0] != '/' && u[|u| - 1] != '/';
  }

  /** For plain components a synced library is mounted at
      `<mount point>/synchron/<library>-<server>` from
      `fs/<username>/<server>/synchron/<library>` of the cache claim, where
      `server` is the network location with its dots turned into underscores. */
  lemma SyncMountShape(cfg: Config, username: string, lib: SyncedLibrary)
    requires Paths.Root(cfg.mountPoint) && Paths.Segment(username)
    requires Paths.Segment(lib.libraryName) && Netloc(lib.syncNetloc)
    ensures var server := Paths.Underscored(lib.syncNetloc);
            var m := SyncMount(cfg, username, lib);
            && m.name == CacheVolume && !m.readOnly
            && m.mountPath == cfg.mountPoint + "/synchron/" + lib.libraryName + "-" + server
            && m.subPath == "fs/" + username + "/" + server + "/synchron/" + lib.libraryName
  {
    var server := Paths.Underscored(lib.syncNetloc);
    UnderscoredNetloc(lib.syncNetloc);
    SyncTarget(cfg.mountPoint, lib.libraryName, server);
    SyncSource(username, server, lib.libraryName);
  }

  lemma SyncTarget(mountPoint: string, library: string, server: string)
    requires Paths.Root(mountPoint) && Paths.Segment(library) && Paths.Segment(server)
    ensures Paths.Join(Paths.Join(mountPoint, "synchron"), library + "-" + server)
            == mountPoint + "/synchron/" + library + "-" + server
  {
    var leaf := library + "-" + server;
    assert Paths.Segment(leaf) by { assert leaf[0] == library[0]; assert leaf[|leaf| - 1] == server[|server| - 1]; }
    Paths.JoinSegment(mountPoint, "synchron");
    Paths.JoinSegment(mountPoint + "/synchron", leaf);
  }

  lemma SyncSource(username: string, server: string, library: string)
    requires Paths.Segment(username) && Paths.Segment(server) && Paths.Segment(library)
    ensures Paths.Join(Paths.Join(Paths.Join(Paths.Join("fs", username), server), "synchron"), library)
            == "fs/" + username + "/" + server + "/synchron/" + library
  {
    var p1 := Paths.Join("fs", username);
    Paths.JoinSegment("fs", username);
    var p2 := Paths.Join(p1, server);
    Paths.JoinSegment(p1, server);
    var p3 := Paths.Join(p2, "synchron");
    Paths.JoinSegment(p2, "synchron");
    Paths.JoinSegment(p3, library);
    assert p3 + "/" + library == "fs/" + username + "/" + server + "/synchron/" + library;
  }

  /** The repository analogue: `<mount point>/git/<folder>-<server>` from
      `git/<username>/<server>/<folder>` of the cache claim. */
  lemma RepoMountShape(cfg: Config, username: string, repo: RepoClone)
    requires Paths.Root(cfg.mountPoint) && Paths.Segment(username)
    requires Paths.Segment(repo.cloneFolder) && Netloc(repo.repoNetloc)
    ensures var server := Paths.Underscored(repo.repoNetloc);
            var m := RepoMount(cfg, username, repo);
            && m.name == CacheVolume && !m.readOnly
            && m.mountPath == cfg.mountPoint + "/git/" + repo.cloneFolder + "-" + server
            && m.subPath == "git/" + username + "/" + server + "/" + repo.cloneFolder
  {
    var server := Paths.Underscored(repo.repoNetloc);
    UnderscoredNetloc(repo.repoNetloc);
    RepoTarget(cfg.mountPoint, repo.cloneFolder, server);
    RepoSource(username, server, repo.cloneFolder);
  }

  lemma RepoTarget(mountPoint: string, folder: string, server: string)
    requires Paths.Root(mountPoint) && Paths.Segment(folder) && Paths.Segment(server)
    ensures Paths.Join(Paths.Join(mountPoint, "git"), folder + "-" + server)
            == mountPoint + "/git/" + folder + "-" + server
  {
    var leaf := folder + "-" + server;
    assert Paths.Segment(leaf) by { assert leaf[0] == folder[0]; assert leaf[|leaf| - 1] == server[|server| - 1]; }
    Paths.JoinSegment(mountPoint, "git");
    Paths.JoinSegment(mountPoint + "/git", leaf);
  }

  lemma RepoSource(username: string, server: string, folder: string)
    requires Paths.Segment(username) && Paths.Segment(server) && Paths.Segment(folder)
    ensures Paths.Join(Paths.Join(Paths.Join("git", username), server), folder)
            == "git/" + username + "/" + server + "/" + folder
  {
    var p1 := Paths.Join("git", username);
    Paths.JoinSegment("git", username);
    var p2 := Paths.Join(p1, server);
    Paths.JoinSegment(p1, server);
    Paths.JoinSegment(p2, folder);
    assert p2 + "/" + folder == "git/" + username + "/" + server + "/" + folder;
  }
}
