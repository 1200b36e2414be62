/** The entities the spawner works on: a service record with its image,
    proxies, environment and bindings, the spawner settings, and the volume
    mounts and claim declarations derived from them. */
module KubeModel {
  import opened Wrappers

  /** The four states a service record can be in. */
  datatype State = NotPresent | Running | NeedRestart | Error

  /** An image with its three capability flags. */
  datatype Image = Image(name: string, requireHome: bool, mountProject: bool, mountReport: bool)

  /** A proxy registered for a service: the internal port it reaches. */
  datatype Proxy = Proxy(port: int)

  /** One `{"name": ..., "value": ...}` entry of the container environment. */
  datatype EnvVar = EnvVar(name: string, value: string)

  /** A synchronised library: its name and the network location (host part
      of the URL) of the sync server it is tied to. */
  datatype SyncedLibrary = SyncedLibrary(libraryName: string, syncNetloc: string)

  /** A repository clone: its folder and the network location of the remote. */
  datatype RepoClone = RepoClone(cloneFolder: string, repoNetloc: string)

  /** A service record. `projects` lists the unique names of the bound
      projects in binding order; `lastMessageAt` is an opaque timestamp. */
  datatype Service = Service(
    serviceLabel: string,
    username: string,
    image: Image,
    proxies: seq<Proxy>,
    envVariables: seq<EnvVar>,
    projects: seq<string>,
    syncedLibraries: seq<SyncedLibrary>,
    repos: seq<RepoClone>,
    state: State,
    lastMessage: Option<string>,
    lastMessageAt: Option<int>)

  /** The spawner settings that shape mount paths. */
  datatype Config = Config(mountPoint: string, projectSubdir: string, reportSubdir: string, reportPrepareSubdir: string)

  /** Reads the spawner section of the settings, each key falling back to its default. */
  function ConfigFrom(spawner: map<string, string>): Config {
    Config(
      if "volume_mount" in spawner then spawner["volume_mount"] else "/mnt",
      if "project_subdir" in spawner then spawner["project_subdir"] else "project",
      if "report_subdir" in spawner then spawner["report_subdir"] else "report",
      if "report_prepare_subdir" in spawner then spawner["report_prepare_subdir"] else "report_prepare")
  }

  /** One entry of the container's `volumeMounts`; `readOnly` is set only on report mounts. */
  datatype Mount = Mount(name: string, mountPath: string, subPath: string, readOnly: bool)

  /** One entry of the pod's `volumes`: a volume name bound to a persistent volume claim. */
  datatype Volume = Volume(name: string, claimName: string)

  const HomeVolume := "pv-k8plex-hub-home"
  const ProjectVolume := "pv-k8plex-hub-project"
  const ReportVolume := "pv-k8plex-hub-report"
  const CacheVolume := "pv-k8plex-hub-cache"

  const HomeClaim := Volume(HomeVolume, "pvc-home-k8plex")
  const ProjectClaim := Volume(ProjectVolume, "pvc-project-k8plex")
  const ReportClaim := Volume(ReportVolume, "pvc-report-k8plex")
  const CacheClaim := Volume(CacheVolume, "pvc-cache-k8plex")

  /** The namespace every object of the spawner lives in. */
  const Namespace := "default"
}
