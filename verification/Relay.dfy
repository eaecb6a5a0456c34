/**
 Admission, outbound flights and draining of the OHTTP relay (ohttp-relay/server.js).

 Every function below is one synchronous turn of the event loop, or a closure such a turn calls.
 A run is any sequence of turns, so callbacks interleave freely. Three facts about Node's HTTP
 server are built into which turns are possible: a response is marked destroyed no later than its
 'close' event, 'finish' is emitted only after end(), and a request emits 'aborted' only while
 its body has not been read to the end.
 */
module Relay {
  import opened Prelude

  /** Identifies an incoming HTTP request and its response. */
  type Id = nat

  type Client = string

  /** Sockets of the keep-alive pool to the gateway. */
  const MAX_SOCKETS := 128

  datatype Limits = Limits(maxInflight: int, requestsPerMinute: int)

  /** Leaves room in the pool for the config fetch and another client. */
  function ClientCap(l: Limits): int {
    if l.requestsPerMinute > 0 && l.requestsPerMinute < MAX_SOCKETS - 2 then l.requestsPerMinute else MAX_SOCKETS - 2
  }

  /** A server response. `status` is what was sent, 0 before; `joined` is the flight it was added to,
      `listening` whether that flight's 'close' listener is still attached. */
  datatype Res = Res(destroyed: bool, ended: bool, status: int, joined: Option<nat>, listening: bool)

  datatype Stage = Authorizing | Receiving(aborted: bool) | Forwarded(flight: nat) | Over

  /** An admitted relay request; `releases` counts how often its slot was given back. */
  datatype Slot = Slot(client: Client, authPending: bool, releaseRequested: bool, releases: nat,
                       stage: Stage, reqDestroyed: bool)

  datatype Kind = Post(owner: Id) | ConfigFetch

  /** An outbound request and the callers waiting for it, in joining order. */
  datatype Flight = Flight(kind: Kind, callers: seq<Id>, completed: bool)

  datatype Outcome = Answered(status: int) | Skipped | Disconnected

  /** The one line logged when a caller is done with a flight. */
  datatype Terminal = Terminal(caller: Id, flight: nat, outcome: Outcome)

  datatype State = State(inflight: int, clientInflight: map<Client, int>,
                         draining: bool, httpClosed: bool, exit: Option<int>,
                         res: map<Id, Res>, slots: map<Id, Slot>,
                         flights: seq<Flight>, configFlight: Option<nat>,
                         outcomes: seq<Terminal>)

  datatype AuthResult = Authorized | Denied | Threw

  // ----- Closures -----

  function FinishDrain(s: State): State
  {
    if s.draining && s.httpClosed && s.inflight == 0 then s.(exit := Some(0)) else s
  }

  function Decrement(m: map<Client, int>, c: Client): map<Client, int> {
    if c !in m then m else if m[c] - 1 == 0 then m - {c} else m[c := m[c] - 1]
  }

  function ReleaseSlot(s: State, id: Id): State
    requires id in s.slots
  {
    var slot := s.slots[id];
    if slot.authPending then s.(slots := s.slots[id := slot.(releaseRequested := true)])
    else if slot.releases > 0 then s
    else FinishDrain(s.(slots := s.slots[id := slot.(releases := slot.releases + 1)],
                        inflight := s.inflight - 1,
                        clientInflight := Decrement(s.clientInflight, slot.client)))
  }

  /** writeHead and end, where the response can still take them. */
  function Settle(res: map<Id, Res>, callers: seq<Id>, status: int): map<Id, Res> {
    map k | k in res :: if k in callers then Told(res[k], status) else res[k]
  }

  /** One response that no longer listens, and is sent unless it is destroyed or was sent before. */
  function Told(r: Res, status: int): Res {
    if !r.destroyed && !r.ended then r.(listening := false, ended := true, status := status) else r.(listening := false)
  }

  function Verdicts(res: map<Id, Res>, callers: seq<Id>, flight: nat, status: int): seq<Terminal> {
    seq(|callers|, i requires 0 <= i < |callers| =>
      Terminal(callers[i], flight,
               if callers[i] in res && !res[callers[i]].destroyed && !res[callers[i]].ended then Answered(status) else Skipped))
  }

  function FinishFlight(s: State, f: nat, status: int): State
    requires f < |s.flights|
  {
    var fl := s.flights[f];
    if fl.completed then s
    else s.(flights := s.flights[f := fl.(completed := true, callers := [])],
            configFlight := if fl.kind.ConfigFetch? then None else s.configFlight,
            res := Settle(s.res, fl.callers, status),
            outcomes := s.outcomes + Verdicts(s.res, fl.callers, f, status))
  }

  function Remove(callers: seq<Id>, id: Id): seq<Id> {
    if callers == [] then []
    else if callers[0] == id then callers[1..]
    else [callers[0]] + Remove(callers[1..], id)
  }

  /** The 'close' listener of a flight. */
  function Closed(s: State, f: nat, id: Id): State
    requires f < |s.flights| && id in s.res
  {
    if s.res[id].ended || s.flights[f].completed then s
    else
      var u := s.(flights := s.flights[f := s.flights[f].(callers := Remove(s.flights[f].callers, id))],
                  res := s.res[id := s.res[id].(listening := false)],
                  outcomes := s.outcomes + [Terminal(id, f, Disconnected)]);
      if u.flights[f].callers == [] then FinishFlight(u, f, 499) else u
  }

  /** `add` on a flight that is not completed. */
  function Join(s: State, f: nat, id: Id): State
    requires f < |s.flights| && id in s.res
  {
    var u := s.(flights := s.flights[f := s.flights[f].(callers := s.flights[f].callers + [id])],
                res := s.res[id := s.res[id].(joined := Some(f), listening := true)]);
    if u.res[id].destroyed then Closed(u, f, id) else u
  }

  /** `proxyGatewayRequest`: a new flight, which may complete before this returns. */
  function Launch(s: State, kind: Kind, id: Id): State
    requires id in s.res
  {
    Join(s.(flights := s.flights + [Flight(kind, [], false)]), |s.flights|, id)
  }

  function EndResponse(s: State, id: Id, status: int): State
    requires id in s.res
  {
    s.(res := s.res[id := s.res[id].(ended := true, status := status)])
  }

  // ----- Turns -----

  /** A POST /relay that passed the stateless checks. */
  function Arrive(l: Limits, s: State, id: Id, client: Client, rateLimited: bool): State {
    var t := s.(res := s.res[id := Res(false, false, 0, None, false)]);
    var count := if client in s.clientInflight then s.clientInflight[client] else 0;
    if s.draining || rateLimited || s.inflight >= l.maxInflight || count >= ClientCap(l) then EndResponse(t, id, if s.draining then 503 else 429)
    else t.(inflight := s.inflight + 1,
            clientInflight := s.clientInflight[client := count + 1],
            slots := s.slots[id := Slot(client, true, false, 0, Authorizing, false)])
  }

  /** A GET /ohttp-configs; its socket may already be gone. */
  function ArriveConfig(s: State, id: Id, destroyed: bool, cached: bool, haveGateway: bool): State {
    var t := s.(res := s.res[id := Res(destroyed, false, 0, None, false)]);
    if s.draining || cached || !haveGateway then EndResponse(t, id, if s.draining then 503 else if cached then 200 else 502)
    else ShareConfig(t, id)
  }

  /** Joins the config fetch in flight, or opens one when `add` refuses. The pointer is assigned
      after construction, so it may name a flight that has already completed. */
  function ShareConfig(s: State, id: Id): State
    requires id in s.res
  {
    if s.configFlight.Some? && s.configFlight.value < |s.flights| && !s.flights[s.configFlight.value].completed then
      Join(s, s.configFlight.value, id)
    else Launch(s, ConfigFetch, id).(configFlight := Some(|s.flights|))
  }

  /** The authorization promise settles. */
  function Authorize(s: State, id: Id, result: AuthResult): State
    requires id in s.slots && id in s.res
  {
    var gone := s.slots[id].reqDestroyed || s.res[id].destroyed;
    var t := if !result.Authorized? && !s.res[id].destroyed then EndResponse(s, id, if result.Denied? then 401 else 503) else s;
    var u := t.(slots := t.slots[id := t.slots[id].(authPending := false,
                stage := if result.Authorized? && !gone then Receiving(false) else Over)]);
    if s.slots[id].releaseRequested || gone then ReleaseSlot(u, id) else u
  }

  function Aborted(s: State, id: Id): State
    requires id in s.slots
  {
    ReleaseSlot(s.(slots := s.slots[id := s.slots[id].(stage := Receiving(true), reqDestroyed := true)]), id)
  }

  /** A body chunk that exceeds the limit. */
  function Oversize(s: State, id: Id): State
    requires id in s.slots && id in s.res && s.slots[id].stage.Receiving?
  {
    if s.slots[id].stage.aborted then s
    else ReleaseSlot(EndResponse(s.(slots := s.slots[id := s.slots[id].(stage := Receiving(true), reqDestroyed := true)]), id, 413), id)
  }

  /** The body has been read to the end. */
  function BodyEnd(s: State, id: Id): State
    requires id in s.slots && id in s.res && s.slots[id].stage.Receiving?
  {
    if s.slots[id].stage.aborted || s.res[id].destroyed then s.(slots := s.slots[id := s.slots[id].(stage := Over)])
    else Launch(s.(slots := s.slots[id := s.slots[id].(stage := Forwarded(|s.flights|))]), Post(id), id)
  }

  function ResFinish(s: State, id: Id): State {
    if id in s.slots then ReleaseSlot(s, id) else s
  }

  /** The flight's listener runs before the one that gives the slot back. */
  function ResClose(s: State, id: Id): State
    requires id in s.res
  {
    var t := s.(res := s.res[id := s.res[id].(destroyed := true)]);
    var u := if t.res[id].listening && t.res[id].joined.Some? && t.res[id].joined.value < |t.flights|
             then Closed(t, t.res[id].joined.value, id) else t;
    if id in u.slots then ReleaseSlot(u, id) else u
  }

  datatype Event =
    | EArrive(id: Id, client: Client, rateLimited: bool)
    | EArriveConfig(id: Id, destroyed: bool, cached: bool, haveGateway: bool)
    | EAuthorize(id: Id, result: AuthResult)
    | EAborted(id: Id)
    | EOversize(id: Id)
    | EBodyEnd(id: Id)
    | EResFinish(id: Id)
    | EResClose(id: Id)
    | EResDestroyed(id: Id)
    | EReqDestroyed(id: Id)
    | EFlightDone(f: nat, status: int)
    | EShutdown
    | EHttpClosed
    | EHardExit

  predicate Enabled(s: State, e: Event) {
    && s.exit.None?
    && match e
       case EArrive(id, _, _) => id !in s.res
       case EArriveConfig(id, _, _, _) => id !in s.res
       case EAuthorize(id, _) => id in s.slots && id in s.res && s.slots[id].authPending
       case EAborted(id) => id in s.slots && id in s.res && s.slots[id].stage.Receiving?
       case EOversize(id) => id in s.slots && id in s.res && s.slots[id].stage.Receiving?
       case EBodyEnd(id) => id in s.slots && id in s.res && s.slots[id].stage.Receiving?
       case EResFinish(id) => id in s.res && s.res[id].ended
       case EResClose(id) => id in s.res
       case EResDestroyed(id) => id in s.res
       case EReqDestroyed(id) => id in s.slots
       case EFlightDone(f, _) => f < |s.flights|
       case EShutdown => true
       case EHttpClosed => s.draining && !s.httpClosed
       case EHardExit => s.draining
  }

  function Apply(l: Limits, s: State, e: Event): State
    requires Enabled(s, e)
  {
    match e
    case EArrive(id, client, rateLimited) => Arrive(l, s, id, client, rateLimited)
    case EArriveConfig(id, destroyed, cached, haveGateway) => ArriveConfig(s, id, destroyed, cached, haveGateway)
    case EAuthorize(id, result) => Authorize(s, id, result)
    case EAborted(id) => Aborted(s, id)
    case EOversize(id) => Oversize(s, id)
    case EBodyEnd(id) => BodyEnd(s, id)
    case EResFinish(id) => ResFinish(s, id)
    case EResClose(id) => ResClose(s, id)
    case EResDestroyed(id) => s.(res := s.res[id := s.res[id].(destroyed := true)])
    case EReqDestroyed(id) => s.(slots := s.slots[id := s.slots[id].(reqDestroyed := true)])
    case EFlightDone(f, status) => FinishFlight(s, f, status)
    case EShutdown => s.(draining := true)
    case EHttpClosed => FinishDrain(s.(httpClosed := true))
    case EHardExit => s.(exit := Some(1))
  }

  const START := State(0, map[], false, false, None, map[], map[], [], None, [])

  ghost predicate Run(l: Limits, states: seq<State>, events: seq<Event>) {
    && |states| == |events| + 1
    && states[0] == START
    && forall i {:trigger events[i]} :: 0 <= i < |events| ==> Enabled(states[i], events[i]) && states[i + 1] == Apply(l, states[i], events[i])
  }
}
