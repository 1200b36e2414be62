/** The three lifecycle operations of the spawner (`start`, `stop` and
    `check`) as functions from a service record and the answers of the
    remote calls to the calls made, in order, and the resulting record. */
module Lifecycle {
  import opened Wrappers
  import opened KubeModel
  import SpecBuilder
  import Text

  /** The answer of a Kubernetes API call: accepted, or rejected with the
      `code` and `message` of the error body. */
  datatype ApiResponse = Accepted | Rejected(code: int, message: string)

  /** Calls whose rejection with `code` is treated as success. */
  predicate Absorbs(resp: ApiResponse, code: int) {
    resp.Accepted? || resp.code == code
  }

  /** The calls an operation makes, in order, and the record saves. */
  datatype Event =
    | CreateService(service: SpecBuilder.ServiceDefinition)
    | CreatePod(pod: SpecBuilder.PodDefinition)
    | Save(record: Service)
    | AddRoute(routeLabel: string)
    | RemoveRoute(routeLabel: string)
    | DeletePod(podName: string)
    | DeleteService(serviceName: string)
    | ReadLog(podName: string)

  /** Why an operation stopped early: an API rejection that was not
      absorbed, a failing proxy route call, or a Python exception. */
  datatype Failure = ApiFailure(code: int, message: string) | RouteFailure | Crash

  /** The record as the operation left it in memory, the calls made, and
      the failure that ended the operation, if any. */
  datatype Outcome = Outcome(service: Service, trace: seq<Event>, failure: Option<Failure>)

  /** The record most recently saved in a trace. */
  function LastSaved(trace: seq<Event>): (r: Option<Service>)
    ensures r.None? <==> forall k :: 0 <= k < |trace| ==> !trace[k].Save?
    ensures r.Some? ==> exists k :: 0 <= k < |trace| && trace[k] == Save(r.value)
  {
    if |trace| == 0 then None
    else if trace[|trace| - 1].Save? then Some(trace[|trace| - 1].record)
    else
      var init := trace[..|trace| - 1];
      assert forall k :: 0 <= k < |init| ==> init[k] == trace[k];
      LastSaved(init)
  }

  /** `LastSaved` is `None` exactly when the trace saves nothing, and
      otherwise the record is saved at a position `k` after which no other
      save follows. */
  lemma {:induction false} LastSavedIsLast(trace: seq<Event>) returns (k: int)
    ensures LastSaved(trace).None? <==> forall j :: 0 <= j < |trace| ==> !trace[j].Save?
    ensures LastSaved(trace).Some? ==>
              && 0 <= k < |trace| && trace[k] == Save(LastSaved(trace).value)
              && forall j :: k < j < |trace| ==> !trace[j].Save?
    decreases |trace|
  {
    k := -1;
    if |trace| == 0 {
    } else if trace[|trace| - 1].Save? {
      k := |trace| - 1;
    } else {
      var init := trace[..|trace| - 1];
      assert LastSaved(trace) == LastSaved(init);
      k := LastSavedIsLast(init);
      if LastSaved(trace).Some? {
        assert trace[k] == init[k];
        forall j | k < j < |trace| ensures !trace[j].Save? {
          if j < |init| { assert trace[j] == init[j]; }
        }
      }
    }
  }

  /** `start`: create the service object, then the pod, each time treating
      "already exists" (409) as success; then mark the record running, save
      it, and add the proxy route. */
  function Start(cfg: Config, svc: Service, serviceResp: ApiResponse, podResp: ApiResponse, routeOk: bool): Outcome {
    var t1 := [CreateService(SpecBuilder.ServiceDefinitionOf(svc))];
    if !Absorbs(serviceResp, 409) then Outcome(svc, t1, Some(ApiFailure(serviceResp.code, serviceResp.message)))
    else
      var t2 := t1 + [CreatePod(SpecBuilder.PodDefinitionOf(cfg, svc))];
      if !Absorbs(podResp, 409) then Outcome(svc, t2, Some(ApiFailure(podResp.code, podResp.message)))
      else
        var running := svc.(state := Running);
        Outcome(running, t2 + [Save(running), AddRoute(svc.serviceLabel)], if routeOk then None else Some(RouteFailure))
  }

  /** `stop`: remove the proxy route (a failure there aborts), delete the
      pod, then the service object, each time treating "not found" (404) as
      success; then mark the record not present and save it. */
  function Stop(svc: Service, routeOk: bool, podResp: ApiResponse, serviceResp: ApiResponse): Outcome {
    var t1 := [RemoveRoute(svc.serviceLabel)];
    if !routeOk then Outcome(svc, t1, Some(RouteFailure))
    else
      var t2 := t1 + [DeletePod(svc.serviceLabel)];
      if !Absorbs(podResp, 404) then Outcome(svc, t2, Some(ApiFailure(podResp.code, podResp.message)))
      else
        var t3 := t2 + [DeleteService(svc.serviceLabel)];
        if !Absorbs(serviceResp, 404) then Outcome(svc, t3, Some(ApiFailure(serviceResp.code, serviceResp.message)))
        else
          var gone := svc.(state := NotPresent);
          Outcome(gone, t3 + [Save(gone)], None)
  }

  /** How the pod log decodes as JSON, as supplied by the caller: not at
      all, as an object with a `message` entry, or as some other JSON value
      (a bare value such as `42` or `null` is the last kind). */
  datatype JsonShape = NotJson | JsonWithMessage(message: string) | JsonWithoutMessage

  /** The answer of the log read: the log text (with its JSON reading), or
      an API error with the message of its body. */
  datatype LogRead = LogText(text: string, json: JsonShape) | LogApiError(code: int, errorMessage: string)

  /** The state after an API error in `check`: running and restart-pending
      services fall to error, the others keep their state. */
  function StateAfterApiError(s: State): State {
    if s == Running || s == NeedRestart then Error else s
  }

  /** The record `check` saves in its `finally` block. */
  function Recorded(svc: Service, state: State, message: string, now: int): Service {
    svc.(state := state, lastMessage := Some(message), lastMessageAt := Some(now))
  }

  /** `check` with the JSON branch reading the decoded object. A plain-text
      log reports its last non-blank line, stripped. A log with lines but no
      non-blank one pops past its first line: the last popped (blank) line is
      recorded as the empty message by the `finally` block, and the pop error
      then propagates. An empty log has nothing to pop, so `message` is
      unbound in `finally` and nothing is saved; the same holds for a JSON
      value without a `message` entry. */
  function Check(svc: Service, read: LogRead, now: int): Outcome {
    var t := [ReadLog(svc.serviceLabel)];
    match read
    case LogApiError(_, m) =>
      var s := Recorded(svc, StateAfterApiError(svc.state), m, now);
      Outcome(s, t + [Save(s)], None)
    case LogText(text, JsonWithMessage(m)) =>
      var s := Recorded(svc, svc.state, m, now);
      Outcome(s, t + [Save(s)], None)
    case LogText(_, JsonWithoutMessage) =>
      Outcome(svc, t, Some(Crash))
    case LogText(text, NotJson) =>
      match Text.LastLogLine(text)
      case Some(m) =>
        var s := Recorded(svc, svc.state, m, now);
        Outcome(s, t + [Save(s)], None)
      case None =>
        if |text| == 0 then Outcome(svc, t, Some(Crash))
        else
          var s := Recorded(svc, svc.state, "", now);
          Outcome(s, t + [Save(s)], Some(Crash))
  }

  /** `check` as written: the JSON branch indexes the raw log string instead
      of the decoded value, which raises before `message` is bound, so every
      log that decodes as JSON ends in an error with nothing saved. */
  function CheckAsWritten(svc: Service, read: LogRead, now: int): Outcome {
    if read.LogText? && !read.json.NotJson? then Outcome(svc, [ReadLog(svc.serviceLabel)], Some(Crash))
    else Check(svc, read, now)
  }

  // ---------------------------------------------------------------------
  // start

  /** `start` succeeds exactly when both creates succeed or report that the
      object already exists and the route is added; only other rejection
      codes propagate, and they name the call that failed. */
  lemma StartAbsorbsConflict(cfg: Config, svc: Service, serviceResp: ApiResponse, podResp: ApiResponse, routeOk: bool)
    ensures var r := Start(cfg, svc, serviceResp, podResp, routeOk);
            && (r.failure.None? <==> Absorbs(serviceResp, 409) && Absorbs(podResp, 409) && routeOk)
            && (!Absorbs(serviceResp, 409) ==> r.failure == Some(ApiFailure(serviceResp.code, serviceResp.message)))
            && (Absorbs(serviceResp, 409) && !Absorbs(podResp, 409) ==> r.failure == Some(ApiFailure(podResp.code, podResp.message)))
  {
  }

  /** The calls of `start` come in a fixed order: service object, pod, the
      save of the running record, the route. A failed create stops the
      sequence there, leaving the record unsaved and unchanged. */
  lemma StartOrder(cfg: Config, svc: Service, serviceResp: ApiResponse, podResp: ApiResponse, routeOk: bool)
    ensures var r := Start(cfg, svc, serviceResp, podResp, routeOk);
            && 1 <= |r.trace| && r.trace[0] == CreateService(SpecBuilder.ServiceDefinitionOf(svc))
            && (Absorbs(serviceResp, 409) ==> 2 <= |r.trace| && r.trace[1] == CreatePod(SpecBuilder.PodDefinitionOf(cfg, svc)))
            && (Absorbs(serviceResp, 409) && Absorbs(podResp, 409) ==>
                  |r.trace| == 4 && r.trace[2] == Save(svc.(state := Running)) && r.trace[3] == AddRoute(svc.serviceLabel))
            && (!(Absorbs(serviceResp, 409) && Absorbs(podResp, 409)) ==> r.service == svc && LastSaved(r.trace).None?)
  {
    var r := Start(cfg, svc, serviceResp, podResp, routeOk);
    var cs, cp := CreateService(SpecBuilder.ServiceDefinitionOf(svc)), CreatePod(SpecBuilder.PodDefinitionOf(cfg, svc));
    if !Absorbs(serviceResp, 409) {
      assert r.trace == [cs];
      assert forall k :: 0 <= k < |r.trace| ==> !r.trace[k].Save?;
    } else if !Absorbs(podResp, 409) {
      assert r.trace == [cs, cp];
      assert forall k :: 0 <= k < |r.trace| ==> !r.trace[k].Save?;
    } else {
      assert r.trace == [cs, cp, Save(svc.(state := Running)), AddRoute(svc.serviceLabel)];
    }
  }

  /** The record is saved as running before the route is added, so a route
      failure still leaves it saved as running; the state only becomes
      running once both creates went through. */
  lemma StartRunningBeforeRoute(cfg: Config, svc: Service, serviceResp: ApiResponse, podResp: ApiResponse, routeOk: bool)
    ensures var r := Start(cfg, svc, serviceResp, podResp, routeOk);
            && (r.failure == Some(RouteFailure) ==> LastSaved(r.trace) == Some(r.service) && r.service.state == Running)
            && (r.service.state == Running && svc.state != Running ==> Absorbs(serviceResp, 409) && Absorbs(podResp, 409))
  {
    var r := Start(cfg, svc, serviceResp, podResp, routeOk);
    if Absorbs(serviceResp, 409) && Absorbs(podResp, 409) {
      var running := svc.(state := Running);
      var cs, cp := CreateService(SpecBuilder.ServiceDefinitionOf(svc)), CreatePod(SpecBuilder.PodDefinitionOf(cfg, svc));
      assert r.trace == [cs, cp, Save(running), AddRoute(svc.serviceLabel)];
      SavedBeforeRoute(cs, cp, running, svc.serviceLabel);
    }
  }

  /** The trace shape of a `start` whose creates went through: the save is
      the last one, whatever the route call did. */
  lemma SavedBeforeRoute(a: Event, b: Event, x: Service, l: string)
    ensures LastSaved([a, b, Save(x), AddRoute(l)]) == Some(x)
  {
    assert [a, b, Save(x), AddRoute(l)][..3] == [a, b, Save(x)];
  }

  // ---------------------------------------------------------------------
  // stop

  /** `stop` succeeds exactly when the route is removed and both deletes
      succeed or report that the object is already gone; it then ends with
      the record saved as not present. */
  lemma StopAbsorbsMissing(svc: Service, routeOk: bool, podResp: ApiResponse, serviceResp: ApiResponse)
    ensures var r := Stop(svc, routeOk, podResp, serviceResp);
            && (r.failure.None? <==> routeOk && Absorbs(podResp, 404) && Absorbs(serviceResp, 404))
            && (r.failure.None? ==> r.service.state == NotPresent && LastSaved(r.trace) == Some(r.service))
            && (r.failure.Some? ==> r.service == svc && LastSaved(r.trace).None?)
  {
    var r := Stop(svc, routeOk, podResp, serviceResp);
    if r.failure.Some? {
      assert forall k :: 0 <= k < |r.trace| ==> !r.trace[k].Save?;
    }
  }

  /** The teardown order: route first, then the pod, then the service
      object, then the save; each step is reached only if the previous one
      went through. */
  lemma StopOrder(svc: Service, routeOk: bool, podResp: ApiResponse, serviceResp: ApiResponse)
    ensures var r := Stop(svc, routeOk, podResp, serviceResp); var l := svc.serviceLabel;
            && 1 <= |r.trace| && r.trace[0] == RemoveRoute(l)
            && (routeOk ==> 2 <= |r.trace| && r.trace[1] == DeletePod(l))
            && (routeOk && Absorbs(podResp, 404) ==> 3 <= |r.trace| && r.trace[2] == DeleteService(l))
            && (!routeOk ==> |r.trace| == 1)
            && (routeOk && !Absorbs(podResp, 404) ==> |r.trace| == 2)
  {
  }

  // ---------------------------------------------------------------------
  // check

  /** The state guard of `check`: only an API error changes the state, and
      then only a running or restart-pending service falls to error. */
  lemma CheckStateGuard(svc: Service, read: LogRead, now: int)
    ensures var r := Check(svc, read, now);
            && (read.LogApiError? ==> (r.service.state == Error <==> svc.state in {Running, NeedRestart, Error}))
            && (read.LogApiError? && svc.state !in {Running, NeedRestart} ==> r.service.state == svc.state)
            && (read.LogText? ==> r.service.state == svc.state)
            && (r.service.state != svc.state ==> read.LogApiError? && r.service.state == Error)
  {
  }

  /** Whenever `check` completes, it has saved the record with the message
      it found and the given time, and the save is its last step. */
  lemma CheckRecordsMessage(svc: Service, read: LogRead, now: int)
    ensures var r := Check(svc, read, now);
            && (r.failure.None? ==>
                  && r.service.lastMessage.Some? && r.service.lastMessageAt == Some(now)
                  && |r.trace| == 2 && r.trace[1] == Save(r.service))
            && (read.LogApiError? ==> r.failure.None? && r.service.lastMessage == Some(read.errorMessage))
  {
  }

  /** Any plain-text log with a non-blank line completes, recording its last
      non-blank line, stripped, and keeping the state; a completed check of
      a plain-text log always recorded such a line. */
  lemma CheckRecordsLastNonBlank(svc: Service, text: string, now: int)
    ensures var lines := Text.SplitLines(text); var r := Check(svc, LogText(text, NotJson), now);
            && (forall l :: Text.LastNonBlankAt(lines, l) ==>
                  r.failure.None? && r.service == Recorded(svc, svc.state, Text.Strip(lines[l]), now))
            && (r.failure.None? ==>
                  exists l :: Text.LastNonBlankAt(lines, l) && r.service.lastMessage == Some(Text.Strip(lines[l])))
  {
    Text.LastLogLineIs(text);
  }

  /** A log written as `\n`-separated lines, with or without a final
      `\n` (the usual pod log ends with one), records its last non-blank
      line, stripped, and keeps the state. */
  lemma CheckRecordsLastLine(svc: Service, lines: seq<string>, l: int, now: int)
    requires Text.BreakFree(lines) && Text.LastNonBlankAt(lines, l)
    ensures var r := Check(svc, LogText(Text.Joined(lines) + "\n", NotJson), now);
            r.failure.None? && r.service == svc.(lastMessage := Some(Text.Strip(lines[l])), lastMessageAt := Some(now))
    ensures lines[|lines| - 1] != [] ==>
              var r := Check(svc, LogText(Text.Joined(lines), NotJson), now);
              r.failure.None? && r.service == svc.(lastMessage := Some(Text.Strip(lines[l])), lastMessageAt := Some(now))
  {
    Text.LastLogLineOfLines(lines, l);
  }

  /** Plain-text logs: `check` completes exactly when some line of the log
      is not blank, and the recorded message is then the last non-blank
      line, stripped: non-empty, with no whitespace at either end. */
  lemma CheckPlainTextCompletes(svc: Service, text: string, now: int)
    ensures Check(svc, LogText(text, NotJson), now).failure.None? <==>
              exists l :: 0 <= l < |Text.SplitLines(text)| && !Text.AllSpace(Text.SplitLines(text)[l])
    ensures var m := Check(svc, LogText(text, NotJson), now).service.lastMessage;
            Check(svc, LogText(text, NotJson), now).failure.None? ==>
              m.Some? && m.value != [] && !Text.IsSpace(m.value[0]) && !Text.IsSpace(m.value[|m.value| - 1])
    ensures var lines := Text.SplitLines(text); var r := Check(svc, LogText(text, NotJson), now);
            r.failure.None? ==> exists l :: Text.LastNonBlankAt(lines, l) && r.service.lastMessage == Some(Text.Strip(lines[l]))
  {
    var lines := Text.SplitLines(text);
    var r := Check(svc, LogText(text, NotJson), now);
    CheckRecordsLastNonBlank(svc, text, now);
    Text.LastLogLineIs(text);
    if r.failure.None? {
      var l :| Text.LastNonBlankAt(lines, l);
      Text.StripCharacterised(lines[l]);
    }
  }

  /** Plain-text logs without a non-blank line: a non-empty one records the
      empty message before failing; an empty one fails without saving. */
  lemma CheckBlankLog(svc: Service, text: string, now: int)
    requires forall l :: 0 <= l < |Text.SplitLines(text)| ==> Text.AllSpace(Text.SplitLines(text)[l])
    ensures var r := Check(svc, LogText(text, NotJson), now);
            && r.failure == Some(Crash)
            && (|text| > 0 ==> LastSaved(r.trace) == Some(r.service) && r.service == Recorded(svc, svc.state, "", now))
            && (|text| == 0 ==> r.service == svc && LastSaved(r.trace).None?)
  {
    var r := Check(svc, LogText(text, NotJson), now);
    assert Text.LastNonBlank(Text.SplitLines(text)).None?;
    if |text| == 0 {
      assert forall k :: 0 <= k < |r.trace| ==> !r.trace[k].Save?;
    }
  }

  /** The two versions differ only on logs that decode as JSON; there the
      version as written always fails without saving anything, whatever the
      decoded message. */
  lemma CheckAsWrittenLosesJson(svc: Service, read: LogRead, now: int)
    ensures read.LogApiError? || read.json.NotJson? ==> CheckAsWritten(svc, read, now) == Check(svc, read, now)
    ensures read.LogText? && !read.json.NotJson? ==>
              CheckAsWritten(svc, read, now).failure == Some(Crash) && LastSaved(CheckAsWritten(svc, read, now).trace).None?
  {
    var r := CheckAsWritten(svc, read, now);
    if read.LogText? && !read.json.NotJson? {
      assert forall k :: 0 <= k < |r.trace| ==> !r.trace[k].Save?;
    }
  }

  /** A concrete case: a pod whose log is the JSON object
      `{"message": "ready"}`. The version as written fails and records
      nothing; the corrected version records "ready". */
  lemma CheckJsonCounterexample(svc: Service, now: int)
    ensures var read := LogText("{\"message\": \"ready\"}", JsonWithMessage("ready"));
            && CheckAsWritten(svc, read, now).failure == Some(Crash)
            && CheckAsWritten(svc, read, now).service == svc
            && Check(svc, read, now).failure.None?
            && Check(svc, read, now).service.lastMessage == Some("ready")
  {
  }
}
