# Kooplex hub core, modelled in Dafny

Kooplex is a hub that runs notebook containers on Kubernetes for the members
of projects and courses. This project models the parts of the hub with real
decision logic:

- the spawner (`start`, `stop`, `check`):
  - how a service's image, projects, synced libraries and repository clones
    become volume mounts, claim declarations, ports and environment;
  - which answers of the cluster API are absorbed and which propagate;
  - the order of the calls and the service state the record ends in;
- project membership:
  - the single-creator check run before a binding is saved;
  - the role directives of `set_roles`;
  - the volume reconciliation of `set_volumes`;
  - the unique project name and the order of projects;
- the profile helpers: uid allocation, the course projects a user teaches or
  attends, and the non-course project bindings;
- the report views: grouping reports per project (and name), the "latest
  allowed" report, and the "newest public" report.

Modules follow the source files:

| module | models |
|---|---|
| `KubeModel` | the service record, image, proxies, spawner settings, mounts and claims |
| `Paths` | `os.path.join`, and `str.replace('.', '_')` on a host |
| `Text` | `str.splitlines`, `str.strip`, and the last non-blank log line |
| `VolumeComposer` | the mount list and claim list of `start` |
| `SpecBuilder` | ports, environment, pod and service definitions of `start` |
| `Lifecycle` | `start`, `stop`, `check` as functions from API answers to an outcome and a call trace |
| `ClusterWorld` | an abstract cluster that answers those calls, for idempotence and undo properties |
| `Projects` | the project model's bindings, roles, volumes, unique name and order |
| `Profiles` | the profile model's helpers |
| `Reports`, `Grouping` | report order, and the shared grouping loop |
| `ReportViews`, `WorksheetViews` | the helpers of the two report views |
| `Seqs`, `Wrappers` | distinctness, order-preserving de-duplication, `Option` and `Result` |

The Kubernetes client, the proxy and the clock are parameters:
- every cluster call is answered by an `ApiResponse`: `Accepted`, or
  `Rejected(code, message)` carrying the code and message of the error body;
- `addroute`/`removeroute` are a boolean "succeeded";
- `now()` is an integer timestamp;
- whether the pod log decodes as JSON (`json.loads` in `check`) is a
  `JsonShape` handed in with the log text;
- the ORM is replaced by maps, sets and sequences handed in by the caller.

Two behaviours of the code may surprise a reader, and the model keeps both:
- the `subPath` of a synced-library mount and of a repository-clone mount
  uses the host with its dots turned into underscores, not the raw host;
- `removeroute` in `stop` is not guarded, so a failing route removal aborts
  `stop` before anything is deleted.

## Model

| member | source | states |
|---|---|---|
| Paths.Join | kooplexhub/kooplex/lib/kubernetes.py:51 | an absolute second part replaces the first; otherwise exactly one `/` is inserted after a non-empty first part that does not end in one, and nothing is inserted after an empty first part or one ending in `/` |
| Paths.JoinSegment | kooplexhub/kooplex/lib/kubernetes.py:62 | joining a relative component onto a root gives `a + "/" + b`, which is a root again |
| Paths.Underscored | kooplexhub/kooplex/lib/kubernetes.py:85 | same length as the host, each `.` replaced by `_`, every other character kept |
| Text.StripCharacterised | kooplexhub/kooplex/lib/kubernetes.py:209 | `strip()` is empty iff the line is all whitespace; otherwise it is an infix with non-space ends and only whitespace outside it |
| Text.SplitJoined | kooplexhub/kooplex/lib/kubernetes.py:207 | break-free lines joined by `\n`, the last one non-empty, split back into exactly those lines |
| Text.SplitTerminated | kooplexhub/kooplex/lib/kubernetes.py:207 | break-free lines each followed by `\n` split back into exactly those lines: a trailing boundary opens no new line |
| Text.JoinSplitLines | kooplexhub/kooplex/lib/kubernetes.py:207 | a log whose boundaries are all `\n` is its lines joined by `\n`, plus a final `\n` iff the log ends with one |
| Text.SplitLinesLast | kooplexhub/kooplex/lib/kubernetes.py:207 | a log ending in a newline and a non-empty line splits with that line last |
| Text.LastNonBlankIndex | kooplexhub/kooplex/lib/kubernetes.py:208-211 | the pop loop stops at the last non-blank line; `None` iff every line is blank |
| Text.LastLogLineIs | kooplexhub/kooplex/lib/kubernetes.py:207-211 | for any log: no message iff every line is blank; otherwise the message is the last non-blank line, stripped |
| Text.LastLogLineOfLines | kooplexhub/kooplex/lib/kubernetes.py:207-211 | a log of `\n`-separated lines, with or without a final `\n`, reports its last non-blank line, stripped |
| VolumeComposer.ProjectMounts | kooplexhub/kooplex/lib/kubernetes.py:58-65 | k projects give k project mounts, the i-th for the i-th project |
| VolumeComposer.ReportMountsAt | kooplexhub/kooplex/lib/kubernetes.py:67-81 | project i gives the read-only report mount at 2i and the report-prepare cache mount at 2i+1 |
| VolumeComposer.SyncMounts | kooplexhub/kooplex/lib/kubernetes.py:83-91 | one cache mount per synced library, in order |
| VolumeComposer.RepoMounts | kooplexhub/kooplex/lib/kubernetes.py:93-101 | one cache mount per repository clone, in order |
| VolumeComposer.HomeMountFirst | kooplexhub/kooplex/lib/kubernetes.py:44-53 | there is a home mount iff the image requires home, and then it is the first mount |
| VolumeComposer.ProjectMountsInOrder | kooplexhub/kooplex/lib/kubernetes.py:58-65 | the project-claim mounts are exactly the project mounts in project order, or none |
| VolumeComposer.ReportMountsInOrder | kooplexhub/kooplex/lib/kubernetes.py:67-75 | the report-claim mounts are exactly one read-only mount per project, in order, or none |
| VolumeComposer.CacheMountsInOrder | kooplexhub/kooplex/lib/kubernetes.py:76-101 | the cache-claim mounts are the report-prepare mounts, then the library mounts, then the repository mounts |
| VolumeComposer.ProjectsBeforeReports | kooplexhub/kooplex/lib/kubernetes.py:58-81 | every mount is on one of the four claims, and every project mount precedes every report mount |
| VolumeComposer.ReportPairAt | kooplexhub/kooplex/lib/kubernetes.py:67-81 | in the full mount list, each project's report mount is directly followed by its report-prepare mount |
| VolumeComposer.ClaimsMatchMounts | kooplexhub/kooplex/lib/kubernetes.py:44-119 | the declared claim names equal the mounted names, and no claim is declared twice |
| VolumeComposer.ClaimDeclaredIffMounted | kooplexhub/kooplex/lib/kubernetes.py:103-119 | each of the four claims is declared iff at least one mount uses it |
| VolumeComposer.UnknownNameUnmounted | kooplexhub/kooplex/lib/kubernetes.py:42-101 | no mount uses a name other than the four claim names |
| VolumeComposer.ClaimNameMember | kooplexhub/kooplex/lib/kubernetes.py:44-119 | which names are declared: home iff required; project, report, cache iff their flag was set |
| VolumeComposer.ClaimsDistinct | kooplexhub/kooplex/lib/kubernetes.py:103-119 | the claim declarations have pairwise distinct names |
| VolumeComposer.HomeMountShape | kooplexhub/kooplex/lib/kubernetes.py:49-53 | the home mount is at `<mount point>/<username>` with subPath `<username>`, writable |
| VolumeComposer.DefaultHomeMount | kooplexhub/kooplex/lib/kubernetes.py:14-53 | without spawner settings the paths default to `/mnt`, `project`, `report`, `report_prepare`, and the home mount is at `/mnt/<username>` |
| VolumeComposer.UnderscoredNetloc | kooplexhub/kooplex/lib/kubernetes.py:85-99 | the rewritten host is still a plain path component and holds no dot |
| VolumeComposer.SyncMountShape | kooplexhub/kooplex/lib/kubernetes.py:83-91 | target `<mount>/synchron/<lib>-<server>`, subPath `fs/<user>/<server>/synchron/<lib>` on the cache claim, with `server` the underscored host |
| VolumeComposer.RepoMountShape | kooplexhub/kooplex/lib/kubernetes.py:93-101 | target `<mount>/git/<folder>-<server>`, subPath `git/<user>/<server>/<folder>` on the cache claim |
| SpecBuilder.PodPorts | kooplexhub/kooplex/lib/kubernetes.py:32-36 | one pod port per proxy, in order, carrying the proxy's port and named `http` |
| SpecBuilder.ServicePorts | kooplexhub/kooplex/lib/kubernetes.py:37-41 | one service port per proxy, in order, with port and targetPort the proxy's port and protocol TCP |
| SpecBuilder.ComposeEnv | kooplexhub/kooplex/lib/kubernetes.py:25-31 | the environment is LANG, PREFIX=k8plex, SSH_AUTH_SOCK=/tmp/<username>, then the service's own variables in order |
| SpecBuilder.DefinitionsAgree | kooplexhub/kooplex/lib/kubernetes.py:121-154 | pod, container and service are named after the label; the namespace is `default`; the selector is the pod label; the ports correspond; every mount names a declared volume |
| SpecBuilder.LabelInjective | kooplexhub/kooplex/lib/kubernetes.py:127-150 | the `lbl-` labels of two services agree iff their labels do |
| Lifecycle.LastSavedIsLast | kooplexhub/kooplex/lib/kubernetes.py:172-221 | `None` iff the trace saves nothing; otherwise the record is saved at a position after which no other save follows |
| Lifecycle.StartAbsorbsConflict | kooplexhub/kooplex/lib/kubernetes.py:156-174 | `start` succeeds iff both creates succeed or answer 409 and the route is added; any other code propagates from the call that got it |
| Lifecycle.StartOrder | kooplexhub/kooplex/lib/kubernetes.py:156-174 | the service is created first, then the pod, then the record is saved as running, then the route is added; an early failure saves nothing |
| Lifecycle.StartRunningBeforeRoute | kooplexhub/kooplex/lib/kubernetes.py:172-174 | the record becomes running only after both creates passed, and a failing route leaves it saved as running |
| Lifecycle.StopAbsorbsMissing | kooplexhub/kooplex/lib/kubernetes.py:176-195 | `stop` succeeds iff the route is removed and both deletes succeed or answer 404; then the record is saved as not present, otherwise nothing is saved |
| Lifecycle.StopOrder | kooplexhub/kooplex/lib/kubernetes.py:176-195 | route removal, then pod deletion, then service deletion, each only after the previous one passed |
| Lifecycle.CheckStateGuard | kooplexhub/kooplex/lib/kubernetes.py:212-217 | an API error turns running or restart-pending services to error and keeps every other state; a readable log never changes the state |
| Lifecycle.CheckRecordsMessage | kooplexhub/kooplex/lib/kubernetes.py:212-221 | a completed `check` saves a message and the given timestamp; an API error completes and records the error body's message |
| Lifecycle.CheckRecordsLastNonBlank | kooplexhub/kooplex/lib/kubernetes.py:206-221 | for every log that does not decode as JSON and has a non-blank line, `check` completes, records the last non-blank line stripped, and keeps the state; a completed check recorded such a line |
| Lifecycle.CheckRecordsLastLine | kooplexhub/kooplex/lib/kubernetes.py:206-221 | a log of `\n`-separated lines, with or without a final `\n`, records its last non-blank line stripped, with the state unchanged |
| Lifecycle.CheckPlainTextCompletes | kooplexhub/kooplex/lib/kubernetes.py:206-211 | a log that does not decode as JSON completes iff one of its lines is not blank; the recorded message is then that last non-blank line, stripped, non-empty with non-space ends |
| Lifecycle.CheckBlankLog | kooplexhub/kooplex/lib/kubernetes.py:206-221 | a log without a non-blank line ends in an error; a non-empty one saves the empty message first, and an empty one saves nothing |
| Lifecycle.CheckAsWrittenLosesJson | kooplexhub/kooplex/lib/kubernetes.py:203-205 | as written, every JSON log ends in an error with nothing saved; other reads behave as in the corrected `check` |
| Lifecycle.CheckJsonCounterexample | kooplexhub/kooplex/lib/kubernetes.py:204-205 | the log `{"message": "ready"}` makes the as-written `check` fail, while the corrected one records `ready` |
| ClusterWorld.ReplayConcat | kooplexhub/kooplex/lib/kubernetes.py:156-195 | replaying two traces one after the other is replaying their concatenation |
| ClusterWorld.StartEffect | kooplexhub/kooplex/lib/kubernetes.py:156-174 | against the cluster `start` succeeds; afterwards service, pod and route exist and the record is running; existing objects are kept and other labels are untouched |
| ClusterWorld.StartIdempotent | kooplexhub/kooplex/lib/kubernetes.py:159-171 | a second `start` succeeds and changes nothing, because both creates are answered 409 and absorbed |
| ClusterWorld.StopEffect | kooplexhub/kooplex/lib/kubernetes.py:176-195 | against the cluster `stop` succeeds whether or not the objects exist; afterwards none of them exists and the record is not present; other labels are untouched |
| ClusterWorld.StopUndoesStart | kooplexhub/kooplex/lib/kubernetes.py:156-195 | stopping right after starting leaves no object and no route under the label, and the same cluster results from replaying both traces as one |
| Projects.SaveBindingIff | kooplexhub/hub/models/project.py:248-256 | a save is accepted iff it keeps one creator at most and a project without a creator gets a creator binding; an accepted save changes only that binding and keeps a single creator |
| Projects.FirstBindingIsCreator | kooplexhub/hub/models/project.py:255-256 | the first binding of a project is accepted iff it is a creator binding; otherwise the refusal names `<project>-<username>` |
| Projects.CreatorOf | kooplexhub/hub/models/project.py:42-48 | the creator exists iff some binding is a creator binding, and it is that user |
| Projects.AdminCollaboratorPartition | kooplexhub/hub/models/project.py:128-139 | a bound user is exactly one of admin or collaborator; an unbound user is neither |
| Projects.SplitOn | kooplexhub/hub/models/project.py:158 | `split('-')` gives at least one part, and no part holds a dash |
| Projects.SplitJoin | kooplexhub/hub/models/project.py:158 | joining the parts with dashes gives back the directive |
| Projects.JoinSplit | kooplexhub/hub/models/project.py:158 | splitting dash-free parts joined by dashes gives back the parts |
| Projects.DirectiveRoundTrip | kooplexhub/hub/models/project.py:158 | `<target>-<id>` parses back to the same target and id when neither holds a dash, and a parsed directive prints back to its text |
| Projects.SkipEffect | kooplexhub/hub/models/project.py:160-168 | `skip` removes the user's binding if there is one and changes nothing else; the message is added iff a binding was removed |
| Projects.CollaboratorEffect | kooplexhub/hub/models/project.py:169-181 | `collaborator` makes the user a member and changes no other binding; it is refused only for a project without a creator; the message is added iff the binding was created or changed |
| Projects.AdminEffect | kooplexhub/hub/models/project.py:182-194 | `admin` makes the user an administrator; a created binding gets "is in collaboration and is an admin", a changed role gets "set as administrator(s)", an unchanged one gets nothing |
| Projects.DirectiveCreatesNoCreator | kooplexhub/hub/models/project.py:155-195 | no accepted directive adds a creator binding, so a project with one creator at most keeps that property |
| Projects.SetRolesKeepsSingleCreator | kooplexhub/hub/models/project.py:155-195 | after `set_roles` the project still has one creator at most, and every creator was one before |
| Projects.UnknownTargetIgnored | kooplexhub/hub/models/project.py:157-195 | a directive with an unknown target changes nothing and says nothing |
| Projects.SetVolumes | kooplexhub/hub/models/project.py:197-209 | unbinds exactly the known volumes no longer requested and binds exactly the requested ones not yet known, each once, all unbinds first; nothing happens when the two sets agree |
| Projects.SetVolumesExact | kooplexhub/hub/models/project.py:197-209 | when every bound volume is functional or storage, the bound set afterwards is the requested set |
| Projects.UniqueNameSeparates | kooplexhub/hub/models/project.py:54-59 | for two projects that both have a creator, with dash-free creator names, the unique names agree iff the creators' names and the standardised project names agree |
| Projects.LexLessStrictTotal | kooplexhub/hub/models/project.py:39-40 | the order on names is irreflexive, asymmetric and total on distinct names |
| Projects.LexLessTransitive | kooplexhub/hub/models/project.py:39-40 | the order on names is transitive |
| Projects.ProjectOrder | kooplexhub/hub/models/project.py:39-40 | `Project.__lt__` is a strict order, total on projects with different names |
| Profiles.MaxUid | kooplexhub/hub/models/profile.py:125 | the aggregate maximum is one of the uids and at least every one of them |
| Profiles.NextUid | kooplexhub/hub/models/profile.py:125-126 | the new uid is the configured minimum (1000 by default) without profiles, and otherwise one more than the largest uid, so larger than every existing one |
| Profiles.UidsStayUnique | kooplexhub/hub/models/profile.py:121-128 | allocating one uid at a time keeps all uids distinct and increasing |
| Profiles.ProjectsAs | kooplexhub/hub/models/profile.py:56-96 | the projects of the teacher (or student) bindings are exactly those, with repetitions |
| Profiles.YieldUnique | kooplexhub/hub/models/profile.py:58-64 | the `duplicate`-set loop yields each project once, in first-occurrence order, and yields every project it is given |
| Profiles.CourseProjectsTaught | kooplexhub/hub/models/profile.py:56-64 | the projects of the taught courses, each once, in first-binding order |
| Profiles.CourseProjectsAttended | kooplexhub/hub/models/profile.py:88-96 | the projects of the attended courses, each once, in first-binding order |
| Profiles.TeacherStudentIff | kooplexhub/hub/models/profile.py:77-100 | a user is a teacher iff some course binding is a teacher binding, and a student iff some is not |
| Profiles.IsCourseTeacherFirst | kooplexhub/hub/models/profile.py:81-86 | `is_courseteacher` is the teacher flag of the first binding to that course, and false without one |
| Profiles.ProjectBindings | kooplexhub/hub/models/profile.py:30-41 | keeps exactly the bindings whose project belongs to no course |
| Profiles.ProjectBindingsConcat | kooplexhub/hub/models/profile.py:34-41 | the filter keeps list order: it distributes over concatenation |
| Profiles.ProjectBindingsKeepsPlain | kooplexhub/hub/models/profile.py:34-41 | a list without course projects is kept whole |
| Seqs.Dedup | kooplexhub/hub/models/profile.py:58-64 | every element once, nothing else, no longer than the input |
| Seqs.DedupFirstOccurrence | kooplexhub/hub/models/profile.py:58-64 | de-duplication keeps the order of first occurrences |
| Seqs.DedupDistinct | kooplexhub/hub/models/profile.py:58-64 | a list without repetitions is its own de-duplication |
| Reports.SortReports | kooplexhub/kooplex/hub/views/reports.py:28-29 | `sort()` gives a sorted permutation of the list |
| Reports.SortSortedIdentity | kooplexhub/kooplex/hub/views/reports.py:28-29 | sorting a sorted list leaves it unchanged |
| Reports.SortIdempotent | kooplexhub/kooplex/hub/views/reports.py:28-29 | sorting twice is sorting once |
| Reports.SortStable | kooplexhub/kooplex/hub/views/reports.py:28-29 | the sort is stable: the reports of each rank keep their input order |
| Grouping.Filter | kooplexhub/kooplex/hub/views/reports.py:23-27 | the reports with a given key, all of them and nothing else |
| Grouping.GroupBy | kooplexhub/kooplex/hub/views/reports.py:21-30 | one sorted list per key, keys in first-appearance order, each report in its key's list only, the lists together holding exactly the input |
| ReportViews.GroupByProjectAndName | kooplexhub/kooplex/hub/views/reports.py:21-30 | the keys are exactly the (project, name) pairs of the input; every report lands in its own pair's group only; each group is sorted; the groups hold the input as a multiset, so the count is preserved |
| ReportViews.FirstAllowed | kooplexhub/kooplex/hub/views/reports.py:98-100 | the first report the user may see; `None` iff there is none |
| ReportViews.OpenLatestIsGreatestAllowed | kooplexhub/kooplex/hub/views/reports.py:95-101 | the opened report is allowed and ranks highest among the allowed ones; nothing is opened iff no report is allowed |
| WorksheetViews.GroupByProject | kooplexhub/kooplex/hub/views/worksheets.py:26-34 | one sorted group per project of the input; every report lands in its own project's group only; the groups hold the input as a multiset |
| WorksheetViews.LatestPublic | kooplexhub/kooplex/hub/views/worksheets.py:100-105 | for a non-empty list the result has the largest `ts_created`; on ties it is the last such report in the list; an empty list gives `None` |

## Left out

- The Kubernetes client, `config.load_kube_config` and the JSON decoding of error bodies. A cluster answer is an `ApiResponse` whose rejection carries the code and message of the body. A body that does not decode, or lacks `code` or `message`, is not modelled.
- `urlparse`: a synced library or repository carries its network location directly.
- `now()`: an integer parameter.
- Which pod logs decode as JSON: `json.loads` is not modelled. The caller supplies a `JsonShape` with the log text, and the `check` lemmas about plain text hold for logs labelled `NotJson`. A log that is a bare JSON value such as `42`, `true`, `null` or `"ok"` (surrounding whitespace allowed) is `JsonWithoutMessage`, and `check` crashes on it in both versions.
- The proxy's `addroute`/`removeroute` HTTP calls, imported by `kubernetes.py` from `kooplexhub/kooplex/lib/proxy.py`, which is not part of this model: a success flag, and events in the trace.
- The constant `apiVersion` and `kind` fields of the definitions, and the `image.name` string beyond being copied.
- The ORM. Bindings, volumes and reports are handed in as maps, sets and sequences. A query result such as `filter_report(...)` or the public reports of a project is a parameter.
- Signal receivers other than the single-creator check: the filesystem, LDAP and home-directory hooks, and `pwgen` tokens.
- `standardize_str`: a function parameter of `UniqueName`.
- The Report model's `__lt__`, which is not part of this model: it is abstracted as an integer `rank`, with Python's stable sort.
- Request plumbing of the views: reading GET/POST parameters, redirects, rendering, and the report file contents.
- Concurrency and the per-label mutual exclusion, which the code does not implement.
- `courseprojects_taught_NEW`, which is marked for refactoring and is not used by the helpers modelled.
- Projects.UniqueName: requires at most one creator. More than one creator would make the lookup raise; `SetRolesKeepsSingleCreator` and `SaveBindingIff` show that saves never produce that state.
- Projects.SetRoles: the user lookup takes a map from id text to user, so an id that is not a number is just a missing user. On an error, the directives before the failing one keep their effect, and no message is returned.
- Projects.CreatorOf: requires at most one creator. With two creator bindings the source's lookup raises `MultipleObjectsReturned`, which is not modelled; `SaveBindingIff` shows that accepted saves never reach that state.
- Projects.SetVolumes: bindings are a set, so binding a volume of a third kind that is already bound does not show up as a duplicate row. Volume kinds other than functional and storage are lumped into `OtherKind`, which `set_volumes` neither reads nor unbinds.
- ReportViews.OpenLatestIsGreatestAllowed: does not state which of several equally ranked allowed reports is opened.
- WorksheetViews.LatestPublic: the error raised by popping an empty list is modelled as `None`.
- Profiles.NextUid: takes the existing uids as a list, and a missing `min_userid` setting as `None`.

## Findings

| source | as written | input that shows it | evidently intended | confidence | as-written member | corrected member |
|---|---|---|---|---|---|---|
| kooplexhub/kooplex/lib/kubernetes.py:204-205 | after `json.loads(msg)` succeeds, `msg['message']` indexes the raw log string, which raises `TypeError`; `message` is then unbound in `finally`, so the record is not saved | a pod log `{"message": "ready"}` | read the message from the decoded value (`msg_extract['message']`) and record `ready` | not executed | Lifecycle.CheckAsWritten (shown by Lifecycle.CheckJsonCounterexample and Lifecycle.CheckAsWrittenLosesJson) | Lifecycle.Check (its properties in Lifecycle.CheckRecordsMessage and Lifecycle.CheckStateGuard) |
