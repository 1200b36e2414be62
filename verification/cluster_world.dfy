/** An abstract cluster the lifecycle calls act on: the service objects and
    pods by name, the proxy routes, and the saved service records by label.
    The API answers that `start` and `stop` receive are read off this state,
    which gives the 409 and 404 absorption its purpose: starting twice is
    the same as starting once, and stopping what is not there succeeds. */
module ClusterWorld {
  import opened Wrappers
  import opened KubeModel
  import SpecBuilder
  import opened Lifecycle

  datatype Cluster = Cluster(
    services: map<string, SpecBuilder.ServiceDefinition>,
    pods: map<string, SpecBuilder.PodDefinition>,
    routes: set<string>,
    records: map<string, Service>)

  /** The answer to a create: "already exists" when the name is taken. */
  function CreateAnswer(present: bool): ApiResponse {
    if present then Rejected(409, "AlreadyExists") else Accepted
  }

  /** The answer to a delete: "not found" when the name is free. */
  function DeleteAnswer(present: bool): ApiResponse {
    if present then Accepted else Rejected(404, "NotFound")
  }

  /** The effect of one call on the cluster; a create that finds the name
      taken leaves the existing object in place. */
  function Apply(c: Cluster, e: Event): Cluster {
    match e
    case CreateService(d) => if d.name in c.services then c else c.(services := c.services[d.name := d])
    case CreatePod(p) => if p.name in c.pods then c else c.(pods := c.pods[p.name := p])
    case Save(s) => c.(records := c.records[s.serviceLabel := s])
    case AddRoute(l) => c.(routes := c.routes + {l})
    case RemoveRoute(l) => c.(routes := c.routes - {l})
    case DeletePod(n) => c.(pods := c.pods - {n})
    case DeleteService(n) => c.(services := c.services - {n})
    case ReadLog(_) => c
  }

  /** The cluster after a trace of calls, applied in order. */
  function Replay(c: Cluster, trace: seq<Event>): Cluster
    decreases |trace|
  {
    if |trace| == 0 then c else Replay(Apply(c, trace[0]), trace[1..])
  }

  lemma {:induction false} ReplayConcat(c: Cluster, a: seq<Event>, b: seq<Event>)
    ensures Replay(c, a + b) == Replay(Replay(c, a), b)
    decreases |a|
  {
    if |a| == 0 {
      assert a + b == b;
    } else {
      assert (a + b)[0] == a[0];
      assert (a + b)[1..] == a[1..] + b;
      ReplayConcat(Apply(c, a[0]), a[1..], b);
    }
  }

  /** `start` against the cluster, with the proxy accepting the route. */
  function StartIn(c: Cluster, cfg: Config, svc: Service): Outcome {
    Start(cfg, svc, CreateAnswer(svc.serviceLabel in c.services), CreateAnswer(svc.serviceLabel in c.pods), true)
  }

  /** `stop` against the cluster, with the proxy accepting the removal. */
  function StopIn(c: Cluster, svc: Service): Outcome {
    Stop(svc, true, DeleteAnswer(svc.serviceLabel in c.pods), DeleteAnswer(svc.serviceLabel in c.services))
  }

  /** The cluster after `start`, spelled out call by call. */
  function Started(c: Cluster, cfg: Config, svc: Service): Cluster {
    var l := svc.serviceLabel;
    var c1 := Apply(c, CreateService(SpecBuilder.ServiceDefinitionOf(svc)));
    var c2 := Apply(c1, CreatePod(SpecBuilder.PodDefinitionOf(cfg, svc)));
    var c3 := Apply(c2, Save(svc.(state := Running)));
    Apply(c3, AddRoute(l))
  }

  /** Replaying four calls applies them one after the other. */
  lemma ReplayFour(c: Cluster, e0: Event, e1: Event, e2: Event, e3: Event)
    ensures Replay(c, [e0, e1, e2, e3]) == Apply(Apply(Apply(Apply(c, e0), e1), e2), e3)
  {
    var c1, c2, c3 := Apply(c, e0), Apply(Apply(c, e0), e1), Apply(Apply(Apply(c, e0), e1), e2);
    assert [e0, e1, e2, e3][1..] == [e1, e2, e3];
    assert [e1, e2, e3][1..] == [e2, e3];
    assert [e2, e3][1..] == [e3];
    assert [e3][1..] == [];
    assert Replay(c3, [e3]) == Apply(c3, e3);
    assert Replay(c2, [e2, e3]) == Replay(c3, [e3]);
    assert Replay(c1, [e1, e2, e3]) == Replay(c2, [e2, e3]);
    assert Replay(c, [e0, e1, e2, e3]) == Replay(c1, [e1, e2, e3]);
  }

  /** Against the cluster both creates pass, and the trace is the four calls. */
  lemma StartTrace(c: Cluster, cfg: Config, svc: Service)
    ensures StartIn(c, cfg, svc).failure.None?
    ensures StartIn(c, cfg, svc).trace ==
              [CreateService(SpecBuilder.ServiceDefinitionOf(svc)), CreatePod(SpecBuilder.PodDefinitionOf(cfg, svc)),
               Save(svc.(state := Running)), AddRoute(svc.serviceLabel)]
  {
  }

  lemma StartReplay(c: Cluster, cfg: Config, svc: Service)
    ensures StartIn(c, cfg, svc).failure.None?
    ensures Replay(c, StartIn(c, cfg, svc).trace) == Started(c, cfg, svc)
  {
    StartTrace(c, cfg, svc);
    ReplayFour(c, CreateService(SpecBuilder.ServiceDefinitionOf(svc)), CreatePod(SpecBuilder.PodDefinitionOf(cfg, svc)),
               Save(svc.(state := Running)), AddRoute(svc.serviceLabel));
  }

  /** Against the cluster `start` always succeeds: afterwards the service
      object, the pod and the route exist under the label and the record is
      saved as running. Objects that already existed are kept as they were,
      and nothing under another label changes. */
  lemma StartEffect(c: Cluster, cfg: Config, svc: Service)
    ensures var r := StartIn(c, cfg, svc); var c' := Replay(c, r.trace); var l := svc.serviceLabel;
            && r.failure.None?
            && l in c'.services && l in c'.pods && l in c'.routes
            && l in c'.records && c'.records[l] == svc.(state := Running)
            && (l in c.services ==> c'.services[l] == c.services[l])
            && (l in c.pods ==> c'.pods[l] == c.pods[l])
            && (forall n :: n != l ==> (n in c'.services <==> n in c.services) && (n in c'.pods <==> n in c.pods))
            && (forall n :: n != l ==> (n in c'.routes <==> n in c.routes))
  {
    StartReplay(c, cfg, svc);
    var l := svc.serviceLabel;
    var c1 := Apply(c, CreateService(SpecBuilder.ServiceDefinitionOf(svc)));
    var c2 := Apply(c1, CreatePod(SpecBuilder.PodDefinitionOf(cfg, svc)));
    var c3 := Apply(c2, Save(svc.(state := Running)));
    assert c1.pods == c.pods && c1.routes == c.routes && l in c1.services;
    assert forall n :: n != l ==> (n in c1.services <==> n in c.services);
    assert c2.services == c1.services && c2.routes == c.routes && l in c2.pods;
    assert forall n :: n != l ==> (n in c2.pods <==> n in c.pods);
    assert c3.services == c2.services && c3.pods == c2.pods && c3.routes == c.routes;
  }

  /** Starting an already started service changes nothing: every create is
      answered "already exists" and absorbed, and the save and the route
      repeat what is there. */
  lemma StartIdempotent(c: Cluster, cfg: Config, svc: Service)
    ensures var c1 := Replay(c, StartIn(c, cfg, svc).trace);
            && StartIn(c1, cfg, svc).failure.None?
            && Replay(c1, StartIn(c1, cfg, svc).trace) == c1
  {
    var c1 := Replay(c, StartIn(c, cfg, svc).trace);
    var l := svc.serviceLabel;
    StartEffect(c, cfg, svc);
    StartReplay(c1, cfg, svc);
    var d1 := Apply(c1, CreateService(SpecBuilder.ServiceDefinitionOf(svc)));
    assert d1 == c1;
    var d2 := Apply(d1, CreatePod(SpecBuilder.PodDefinitionOf(cfg, svc)));
    assert d2 == c1;
    var d3 := Apply(d2, Save(svc.(state := Running)));
    assert d3.records == c1.records;
    var d4 := Apply(d3, AddRoute(l));
    assert d4.routes == c1.routes;
  }

  /** The cluster after a successful `stop`, spelled out call by call. */
  function Stopped(c: Cluster, svc: Service): Cluster {
    var l := svc.serviceLabel;
    var c1 := Apply(c, RemoveRoute(l));
    var c2 := Apply(c1, DeletePod(l));
    var c3 := Apply(c2, DeleteService(l));
    Apply(c3, Save(svc.(state := NotPresent)))
  }

  /** Against the cluster every step of `stop` passes, and the trace is the four calls. */
  lemma StopTrace(c: Cluster, svc: Service)
    ensures StopIn(c, svc).failure.None?
    ensures StopIn(c, svc).trace ==
              [RemoveRoute(svc.serviceLabel), DeletePod(svc.serviceLabel), DeleteService(svc.serviceLabel), Save(svc.(state := NotPresent))]
  {
  }

  lemma StopReplay(c: Cluster, svc: Service)
    ensures StopIn(c, svc).failure.None?
    ensures Replay(c, StopIn(c, svc).trace) == Stopped(c, svc)
  {
    StopTrace(c, svc);
    ReplayFour(c, RemoveRoute(svc.serviceLabel), DeletePod(svc.serviceLabel), DeleteService(svc.serviceLabel), Save(svc.(state := NotPresent)));
  }

  /** Against the cluster `stop` always succeeds, whether or not the pod and
      service object exist: afterwards neither they nor the route exist under
      the label, the record is saved as not present, and nothing under
      another label changes. */
  lemma StopEffect(c: Cluster, svc: Service)
    ensures var r := StopIn(c, svc); var c' := Replay(c, r.trace); var l := svc.serviceLabel;
            && r.failure.None?
            && l !in c'.services && l !in c'.pods && l !in c'.routes
            && l in c'.records && c'.records[l] == svc.(state := NotPresent)
            && (forall n :: n != l && n in c.services ==> n in c'.services && c'.services[n] == c.services[n])
            && (forall n :: n != l && n in c.pods ==> n in c'.pods && c'.pods[n] == c.pods[n])
            && (forall n :: n != l ==> (n in c'.services <==> n in c.services) && (n in c'.pods <==> n in c.pods))
            && (forall n :: n != l ==> (n in c'.routes <==> n in c.routes))
  {
    StopReplay(c, svc);
  }

  /** Stopping right after starting leaves no object and no route under the
      label, whatever existed before; the same holds for the two call traces
      replayed as one. */
  lemma StopUndoesStart(c: Cluster, cfg: Config, svc: Service)
    ensures var c1 := Replay(c, StartIn(c, cfg, svc).trace);
            var c2 := Replay(c1, StopIn(c1, svc).trace);
            var l := svc.serviceLabel;
            && l !in c2.services && l !in c2.pods && l !in c2.routes
            && l in c2.records && c2.records[l].state == NotPresent
            && c2 == Replay(c, StartIn(c, cfg, svc).trace + StopIn(c1, svc).trace)
  {
    var c1 := Replay(c, StartIn(c, cfg, svc).trace);
    StopEffect(c1, svc);
    ReplayConcat(c, StartIn(c, cfg, svc).trace, StopIn(c1, svc).trace);
  }
}
