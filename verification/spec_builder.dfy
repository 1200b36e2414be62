/** The pod and service definitions `start` submits: ports derived from the
    proxies, the container environment, and the metadata tying the service
    to the pod through a label. */
module SpecBuilder {
  import opened KubeModel
  import VolumeComposer

  /** One entry of the container's `ports`. */
  datatype PodPort = PodPort(containerPort: int, portName: string)

  /** One entry of the service's `ports`. */
  datatype ServicePort = ServicePort(port: int, targetPort: int, protocol: string)

  datatype Container = Container(
    name: string,
    image: string,
    volumeMounts: seq<Mount>,
    ports: seq<PodPort>,
    imagePullPolicy: string,
    env: seq<EnvVar>)

  /** A pod with its single container; `podLabel` is the value of its `lbl` label. */
  datatype PodDefinition = PodDefinition(name: string, namespace: string, podLabel: string, container: Container, volumes: seq<Volume>)

  /** A service; `selector` is the `lbl` value of the pods it routes to. */
  datatype ServiceDefinition = ServiceDefinition(name: string, selector: string, ports: seq<ServicePort>)

  /** The pod label and the service selector of a service record. */
  function LabelOf(serviceLabel: string): string {
    "lbl-" + serviceLabel
  }

  /** One container port named `http` per proxy, in proxy order. */
  function PodPorts(proxies: seq<Proxy>): (r: seq<PodPort>)
    ensures |r| == |proxies|
    ensures forall i :: 0 <= i < |proxies| ==> r[i].containerPort == proxies[i].port && r[i].portName == "http"
  {
    if |proxies| == 0 then [] else [PodPort(proxies[0].port, "http")] + PodPorts(proxies[1..])
  }

  /** One TCP service port per proxy, in proxy order, forwarding the proxy's
      port to the same container port. */
  function ServicePorts(proxies: seq<Proxy>): (r: seq<ServicePort>)
    ensures |r| == |proxies|
    ensures forall i :: 0 <= i < |proxies| ==>
              r[i].port == proxies[i].port && r[i].targetPort == proxies[i].port && r[i].protocol == "TCP"
  {
    if |proxies| == 0 then [] else [ServicePort(proxies[0].port, proxies[0].port, "TCP")] + ServicePorts(proxies[1..])
  }

  /** The three variables every container gets. */
  function BaseEnv(username: string): seq<EnvVar> {
    [EnvVar("LANG", "en_US.UTF-8"), EnvVar("PREFIX", "k8plex"), EnvVar("SSH_AUTH_SOCK", "/tmp/" + username)]
  }

  /** The container environment of a service. */
  function Env(username: string, extra: seq<EnvVar>): seq<EnvVar> {
    BaseEnv(username) + extra
  }

  /** Builds the environment as `start` does, appending the service's own
      variables one by one after the base ones: the result is the base
      variables followed by every variable of the service, in order. */
  method ComposeEnv(username: string, extra: seq<EnvVar>) returns (env: seq<EnvVar>)
    ensures env == Env(username, extra)
    ensures |env| == 3 + |extra|
    ensures env[0] == EnvVar("LANG", "en_US.UTF-8") && env[1] == EnvVar("PREFIX", "k8plex")
    ensures env[2] == EnvVar("SSH_AUTH_SOCK", "/tmp/" + username)
    ensures forall i :: 0 <= i < |extra| ==> env[3 + i] == extra[i]
  {
    env := BaseEnv(username);
    var k := 0;
    while k < |extra|
      invariant 0 <= k <= |extra|
      invariant |env| == 3 + k
      invariant env[..3] == BaseEnv(username)
      invariant forall i :: 0 <= i < k ==> env[3 + i] == extra[i]
    {
      env := env + [extra[k]];
      k := k + 1;
    }
    assert env[3..] == extra;
    assert env == env[..3] + env[3..];
  }

  function PodDefinitionOf(cfg: Config, svc: Service): PodDefinition {
    PodDefinition(
      svc.serviceLabel, Namespace, LabelOf(svc.serviceLabel),
      Container(svc.serviceLabel, svc.image.name, VolumeComposer.Mounts(cfg, svc), PodPorts(svc.proxies), "IfNotPresent", Env(svc.username, svc.envVariables)),
      VolumeComposer.Claims(svc))
  }

  function ServiceDefinitionOf(svc: Service): ServiceDefinition {
    ServiceDefinition(svc.serviceLabel, LabelOf(svc.serviceLabel), ServicePorts(svc.proxies))
  }

  /** The pod and service definitions fit together: both are named after
      the service label, the selector picks exactly the pod's label, the
      i-th service port forwards to the i-th container port, and every
      volume mount names a declared volume. */
  lemma DefinitionsAgree(cfg: Config, svc: Service)
    ensures var pod, service := PodDefinitionOf(cfg, svc), ServiceDefinitionOf(svc);
            && pod.name == svc.serviceLabel && pod.container.name == svc.serviceLabel && service.name == svc.serviceLabel
            && pod.namespace == Namespace
            && service.selector == pod.podLabel
            && |service.ports| == |pod.container.ports|
            && (forall i :: 0 <= i < |service.ports| ==>
                  service.ports[i].targetPort == pod.container.ports[i].containerPort)
            && (forall m :: m in pod.container.volumeMounts ==> m.name in VolumeComposer.ClaimNames(pod.volumes))
  {
    VolumeComposer.ClaimsMatchMounts(cfg, svc);
  }

  /** Distinct service labels give distinct pod labels, so a selector never
      picks another service's pod. */
  lemma LabelInjective(a: string, b: string)
    ensures LabelOf(a) == LabelOf(b) <==> a == b
  {
    if LabelOf(a) == LabelOf(b) {
      assert a == LabelOf(a)[4..] && b == LabelOf(b)[4..];
    }
  }
}
