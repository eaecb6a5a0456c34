/**
 What the relay does with a request, over whole runs (ohttp-relay/server.js): who is admitted, whose body
 reaches the gateway, what every response is told and when a slot is given back. Each is stated as an
 if-and-only-if on the events so far.
 */
module RelayAnswers {
  import opened Prelude
  import opened Relay
  import opened RelayInvariant
  import opened RelayTheorems

  /** One turn of a run. */
  lemma TurnOf(l: Limits, states: seq<State>, events: seq<Event>, n: nat)
    requires Run(l, states, events) && n < |events|
    ensures Inv(l, states[n]) && Enabled(states[n], events[n]) && states[n + 1] == Apply(l, states[n], events[n])
    ensures Inv(l, states[n + 1])
  {
    RunKeepsInv(l, states, events, n);
    RunKeepsInv(l, states, events, n + 1);
  }

  // ----- Admission -----

  /**
   A relay request is admitted if and only if the relay is not draining, the request is not rate limited, fewer than
   `maxInflight` requests hold a slot, and fewer than 126 of its client do, or fewer than the client's rate
   where that is less. An admitted request holds one slot and waits for its authorization; any
   other is told 503 or 429 at once and changes nothing else.
   */
  lemma AdmittedExactly(l: Limits, states: seq<State>, events: seq<Event>, n: nat)
    requires Run(l, states, events) && n < |events| && events[n].EArrive?
    ensures var s, t, id, client := states[n], states[n + 1], events[n].id, events[n].client;
            var admitted := && !s.draining && !events[n].rateLimited && |Held(s.slots)| < l.maxInflight
                            && |HeldBy(s.slots, client)| < 126 && (l.requestsPerMinute > 0 ==> |HeldBy(s.slots, client)| < l.requestsPerMinute);
            && id !in s.slots && t.flights == s.flights && t.outcomes == s.outcomes && t.draining == s.draining && t.exit == s.exit
            && if admitted then
                 t.slots == s.slots[id := Slot(client, true, false, 0, Authorizing, false)] && t.res == s.res[id := Res(false, false, 0, None, false)]
               else t.slots == s.slots && t.res == s.res[id := Res(false, true, if s.draining then 503 else 429, None, false)]
  {
    TurnOf(l, states, events, n);
    ArriveShape(l, states[n], events[n].id, events[n].client, events[n].rateLimited);
  }

  // ----- Stages -----

  ghost predicate IsAuth(e: Event, id: Id) {
    e.EAuthorize? && e.id == id
  }

  /** The body is given up. */
  ghost predicate IsAbort(e: Event, id: Id) {
    (e.EAborted? || e.EOversize?) && e.id == id
  }

  /** How a turn moves an admitted request on. */
  ghost predicate StageMoves(s: State, e: Event, id: Id, a: Slot, b: Slot)
    requires id in s.res
  {
    if IsAuth(e, id) then
      !b.authPending && b.stage == if e.result == Authorized && !a.reqDestroyed && !s.res[id].destroyed then Receiving(false) else Over
    else
      && b.authPending == a.authPending
      && b.stage == if IsAbort(e, id) then Receiving(true)
                    else if e == EBodyEnd(id) then
                      if a.stage == Receiving(false) && !s.res[id].destroyed then Forwarded(|s.flights|) else Over
                    else a.stage
  }

  lemma ReleaseKeepsStage(s: State, id: Id, k: Id)
    requires id in s.slots && k in s.slots
    ensures var t := ReleaseSlot(s, id);
            k in t.slots && t.slots[k].stage == s.slots[k].stage && t.slots[k].authPending == s.slots[k].authPending
  {
  }

  lemma AuthorizeStages(s: State, id: Id, result: AuthResult, k: Id)
    requires id in s.slots && id in s.res && k in s.slots && k in s.res
    ensures k in Authorize(s, id, result).slots && StageMoves(s, EAuthorize(id, result), k, s.slots[k], Authorize(s, id, result).slots[k])
  {
    var gone := s.slots[id].reqDestroyed || s.res[id].destroyed;
    var t := if !result.Authorized? && !s.res[id].destroyed then EndResponse(s, id, if result.Denied? then 401 else 503) else s;
    var u := t.(slots := t.slots[id := t.slots[id].(authPending := false,
                stage := if result.Authorized? && !gone then Receiving(false) else Over)]);
    ReleaseKeepsStage(u, id, k);
  }

  lemma AbortStages(s: State, id: Id, k: Id)
    requires id in s.slots && id in s.res && s.slots[id].stage.Receiving? && k in s.slots && k in s.res
    ensures k in Aborted(s, id).slots && StageMoves(s, EAborted(id), k, s.slots[k], Aborted(s, id).slots[k])
    ensures k in Oversize(s, id).slots && StageMoves(s, EOversize(id), k, s.slots[k], Oversize(s, id).slots[k])
  {
    var u := s.(slots := s.slots[id := s.slots[id].(stage := Receiving(true), reqDestroyed := true)]);
    ReleaseKeepsStage(u, id, k);
    ReleaseKeepsStage(EndResponse(u, id, 413), id, k);
  }

  lemma BodyEndStages(s: State, id: Id, k: Id)
    requires id in s.slots && id in s.res && s.slots[id].stage.Receiving? && k in s.slots && k in s.res
    ensures k in BodyEnd(s, id).slots && StageMoves(s, EBodyEnd(id), k, s.slots[k], BodyEnd(s, id).slots[k])
  {
    if !s.slots[id].stage.aborted && !s.res[id].destroyed {
      LaunchLive(s.(slots := s.slots[id := s.slots[id].(stage := Forwarded(|s.flights|))]), Post(id), id);
    }
  }

  lemma CloseKeepsStages(s: State, id: Id, k: Id)
    requires id in s.res && k in s.slots
    ensures k in ResClose(s, id).slots && ResClose(s, id).slots[k].stage == s.slots[k].stage
    ensures ResClose(s, id).slots[k].authPending == s.slots[k].authPending
  {
    var t := s.(res := s.res[id := s.res[id].(destroyed := true)]);
    var u := if t.res[id].listening && t.res[id].joined.Some? && t.res[id].joined.value < |t.flights|
             then Closed(t, t.res[id].joined.value, id) else t;
    assert u.slots == s.slots;
    if id in u.slots { ReleaseKeepsStage(u, id, k); }
  }

  lemma StepMovesStage(l: Limits, s: State, e: Event, id: Id)
    requires Inv(l, s) && Enabled(s, e) && id in s.slots
    ensures id in s.res && id in Apply(l, s, e).slots && StageMoves(s, e, id, s.slots[id], Apply(l, s, e).slots[id])
  {
    assert s.slots.Keys <= s.res.Keys;
    match e
    case EArrive(k, client, rateLimited) => ArriveShape(l, s, k, client, rateLimited);
    case EArriveConfig(k, destroyed, cached, haveGateway) => ConfigKeepsSlots(s, k, destroyed, cached, haveGateway);
    case EAuthorize(k, result) => AuthorizeStages(s, k, result, id);
    case EAborted(k) => AbortStages(s, k, id);
    case EOversize(k) => AbortStages(s, k, id);
    case EBodyEnd(k) => BodyEndStages(s, k, id);
    case EResFinish(k) => if k in s.slots { ReleaseKeepsStage(s, k, id); }
    case EResClose(k) => CloseKeepsStages(s, k, id);
    case _ =>
  }

  /** A request appears by being admitted. */
  lemma NewSlotIsPending(l: Limits, s: State, e: Event, id: Id)
    requires Inv(l, s) && Enabled(s, e) && id !in s.slots && id in Apply(l, s, e).slots
    ensures e.EArrive? && e.id == id && Apply(l, s, e).slots[id].authPending && Apply(l, s, e).slots[id].stage == Authorizing
  {
    match e
    case EArrive(k, client, rateLimited) => ArriveShape(l, s, k, client, rateLimited);
    case EArriveConfig(k, destroyed, cached, haveGateway) => ConfigKeepsSlots(s, k, destroyed, cached, haveGateway);
    case EAuthorize(k, result) => AuthorizeAdmitsNobody(s, k, result);
    case EAborted(k) => ReleaseFrame(s.(slots := s.slots[k := s.slots[k].(stage := Receiving(true), reqDestroyed := true)]), k);
    case EOversize(k) => OversizeAdmitsNobody(s, k);
    case EBodyEnd(k) => BodyEndAdmitsNobody(s, k);
    case EResFinish(k) => if k in s.slots { ReleaseFrame(s, k); }
    case EResClose(k) => CloseSlots(s, k);
    case _ =>
  }

  // ----- Only an authorized body is forwarded -----

  ghost predicate NoAuth(events: seq<Event>, n: nat, id: Id)
    requires n <= |events|
  {
    forall j :: 0 <= j < n ==> !IsAuth(events[j], id)
  }

  /** Authorization of `id` has settled once in the first `n` turns, in turn `k`. */
  ghost predicate OnlyAuth(events: seq<Event>, n: nat, id: Id, k: nat)
    requires n <= |events|
  {
    k < n && IsAuth(events[k], id) && forall j :: 0 <= j < n && IsAuth(events[j], id) ==> j == k
  }

  /** A live request has passed if its authorization said so. */
  ghost predicate Passed(states: seq<State>, events: seq<Event>, id: Id, k: nat) {
    && k < |events| && k < |states| && events[k] == EAuthorize(id, Authorized)
    && id in states[k].slots && id in states[k].res && !states[k].slots[id].reqDestroyed && !states[k].res[id].destroyed
  }

  ghost predicate History(states: seq<State>, events: seq<Event>, n: nat, id: Id)
    requires n <= |events| && n < |states|
  {
    var slots := states[n].slots;
    && (id !in slots || slots[id].authPending ==> NoAuth(events, n, id))
    && (id in slots && !slots[id].authPending ==> exists k: nat :: OnlyAuth(events, n, id, k))
    && (id in slots && (slots[id].stage.Receiving? || slots[id].stage.Forwarded?) ==>
          exists k: nat :: OnlyAuth(events, n, id, k) && Passed(states, events, id, k))
  }

  lemma {:induction false} RunKeepsHistory(l: Limits, states: seq<State>, events: seq<Event>, n: nat, id: Id)
    requires Run(l, states, events) && n < |states|
    ensures History(states, events, n, id)
  {
    if n > 0 {
      RunKeepsHistory(l, states, events, n - 1, id);
      TurnOf(l, states, events, n - 1);
      TurnKeepsHistory(l, states, events, n - 1, id);
    }
  }

  lemma TurnKeepsHistory(l: Limits, states: seq<State>, events: seq<Event>, n: nat, id: Id)
    requires n < |events| && n + 1 < |states| && Inv(l, states[n]) && Enabled(states[n], events[n])
    requires states[n + 1] == Apply(l, states[n], events[n]) && History(states, events, n, id)
    ensures History(states, events, n + 1, id)
  {
    var s, t, e := states[n], states[n + 1], events[n];
    if id in s.slots {
      StepMovesStage(l, s, e, id);
      assert SlotOk(id, s.slots[id], s.res[id], s.flights);
      if IsAuth(e, id) {
        assert OnlyAuth(events, n + 1, id, n);
      } else if !s.slots[id].authPending {
        LaterAuth(events, n, id);
        PassedStays(states, events, n, id);
      }
    } else if id in t.slots {
      NewSlotIsPending(l, s, e, id);
    }
  }

  lemma LaterAuth(events: seq<Event>, n: nat, id: Id)
    requires n < |events| && !IsAuth(events[n], id)
    ensures forall k: nat :: OnlyAuth(events, n, id, k) ==> OnlyAuth(events, n + 1, id, k)
  {
  }

  lemma PassedStays(states: seq<State>, events: seq<Event>, n: nat, id: Id)
    requires n < |events| && !IsAuth(events[n], id)
    ensures (exists k: nat :: OnlyAuth(events, n, id, k) && Passed(states, events, id, k)) ==>
              exists k: nat :: OnlyAuth(events, n + 1, id, k) && Passed(states, events, id, k)
  {
    LaterAuth(events, n, id);
    if k: nat :| OnlyAuth(events, n, id, k) && Passed(states, events, id, k) {
      assert OnlyAuth(events, n + 1, id, k) && Passed(states, events, id, k);
    }
  }

  /** Whether the body of `id` was given up between two turns. */
  ghost predicate GivenUp(events: seq<Event>, k: nat, m: nat, id: Id)
    requires m <= |events|
  {
    exists j :: k < j < m && IsAbort(events[j], id)
  }

  /** A request whose body is being read was so before, unless it has just been authorized. */
  lemma ReadingBefore(l: Limits, states: seq<State>, events: seq<Event>, n: nat, id: Id)
    requires Run(l, states, events) && n < |events|
    requires id in states[n + 1].slots && states[n + 1].slots[id].stage.Receiving?
    ensures IsAuth(events[n], id) ==> !states[n + 1].slots[id].stage.aborted
    ensures !IsAuth(events[n], id) ==> id in states[n].slots && states[n].slots[id].stage.Receiving?
    ensures !IsAuth(events[n], id) ==>
              (states[n + 1].slots[id].stage.aborted <==> states[n].slots[id].stage.aborted || IsAbort(events[n], id))
  {
    TurnOf(l, states, events, n);
    if id in states[n].slots { StepMovesStage(l, states[n], events[n], id); } else { NewSlotIsPending(l, states[n], events[n], id); }
  }

  /** While a body is being read, it is marked aborted exactly if it was given up since authorization. */
  lemma {:induction false} AbortedMeansGivenUp(l: Limits, states: seq<State>, events: seq<Event>, k: nat, m: nat, id: Id)
    requires Run(l, states, events) && m < |states| && m <= |events| && OnlyAuth(events, m, id, k)
    requires id in states[m].slots && states[m].slots[id].stage.Receiving?
    ensures states[m].slots[id].stage.aborted <==> GivenUp(events, k, m, id)
    decreases m
  {
    ReadingBefore(l, states, events, m - 1, id);
    if m - 1 > k {
      assert !IsAuth(events[m - 1], id);
      AbortedMeansGivenUp(l, states, events, k, m - 1, id);
      GivenUpNext(events, k, m - 1, id);
    }
  }

  lemma GivenUpNext(events: seq<Event>, k: nat, m: nat, id: Id)
    requires k < m < |events|
    ensures GivenUp(events, k, m + 1, id) <==> GivenUp(events, k, m, id) || IsAbort(events[m], id)
  {
  }

  /**
   The end of a body is reached only for a request that was alive when its one authorization said yes; and it
   opens exactly one POST to the gateway if the response is still alive and the body was not aborted or
   refused in between, and none otherwise.
   */
  lemma ForwardedExactly(l: Limits, states: seq<State>, events: seq<Event>, m: nat, id: Id) returns (k: nat)
    requires Run(l, states, events) && m < |events| && events[m] == EBodyEnd(id)
    ensures OnlyAuth(events, m, id, k) && Passed(states, events, id, k) && id in states[m].res
    ensures states[m + 1].flights == if states[m].res[id].destroyed || GivenUp(events, k, m, id) then states[m].flights
                                     else states[m].flights + [Flight(Post(id), [id], false)]
  {
    TurnOf(l, states, events, m);
    RunKeepsHistory(l, states, events, m, id);
    k :| OnlyAuth(events, m, id, k) && Passed(states, events, id, k);
    AbortedMeansGivenUp(l, states, events, k, m, id);
    BodyEndFlights(states[m], id);
  }

  lemma AuthorizeKeepsFlights(s: State, id: Id, result: AuthResult)
    requires id in s.slots && id in s.res
    ensures Authorize(s, id, result).flights == s.flights
  {
  }

  /** These turns touch no flight. */
  lemma QuietTurn(l: Limits, s: State, e: Event)
    requires Enabled(s, e) && !e.EArriveConfig? && !e.EResClose? && !e.EFlightDone? && !e.EBodyEnd?
    ensures Apply(l, s, e).flights == s.flights
  {
    match e
    case EArrive(id, client, rateLimited) => ArriveShape(l, s, id, client, rateLimited);
    case EAuthorize(id, result) => AuthorizeKeepsFlights(s, id, result);
    case _ =>
  }

  /** The turns of a flight's end keep its kind and open none. */
  lemma EndingKeepsKinds(s: State, id: Id, g: nat, status: int)
    ensures id in s.res ==> var t := ResClose(s, id); |t.flights| == |s.flights| && forall f :: 0 <= f < |s.flights| ==> t.flights[f].kind == s.flights[f].kind
    ensures g < |s.flights| ==> var t := FinishFlight(s, g, status); |t.flights| == |s.flights| && forall f :: 0 <= f < |s.flights| ==> t.flights[f].kind == s.flights[f].kind
  {
    if id in s.res { CloseFlights(s, id); }
  }

  /** Flights keep their kind, and a new one is opened by a body that is forwarded or by a config request. */
  lemma StepFlights(l: Limits, s: State, e: Event)
    requires Inv(l, s) && Enabled(s, e)
    ensures var t := Apply(l, s, e);
            && |s.flights| <= |t.flights| <= |s.flights| + 1
            && (forall f :: 0 <= f < |s.flights| ==> t.flights[f].kind == s.flights[f].kind)
            && (|t.flights| == |s.flights| + 1 ==>
                  if e.EBodyEnd? then t.flights[|s.flights|].kind == Post(e.id)
                  else e.EArriveConfig? && t.flights[|s.flights|].kind == ConfigFetch)
  {
    match e
    case EArriveConfig(id, destroyed, cached, haveGateway) => ConfigFlights(s, id, destroyed, cached, haveGateway);
    case EResClose(id) => EndingKeepsKinds(s, id, 0, 0);
    case EFlightDone(f, status) => EndingKeepsKinds(s, 0, f, status);
    case EBodyEnd(id) => BodyEndFlights(s, id);
    case _ => QuietTurn(l, s, e);
  }

  /** The end of a body forwards it, or does nothing to the flights. */
  lemma BodyEndFlights(s: State, id: Id)
    requires id in s.slots && id in s.res && s.slots[id].stage.Receiving?
    ensures BodyEnd(s, id).flights == if s.slots[id].stage.aborted || s.res[id].destroyed then s.flights
                                      else s.flights + [Flight(Post(id), [id], false)]
  {
    if !s.slots[id].stage.aborted && !s.res[id].destroyed {
      LaunchLive(s.(slots := s.slots[id := s.slots[id].(stage := Forwarded(|s.flights|))]), Post(id), id);
    }
  }

  /** Every flight of `s` is there with its kind in `t`, and at most a config fetch is new. */
  ghost predicate OnlyConfigAdded(s: State, t: State) {
    && |s.flights| <= |t.flights| <= |s.flights| + 1
    && (forall f :: 0 <= f < |s.flights| ==> t.flights[f].kind == s.flights[f].kind)
    && (|t.flights| == |s.flights| + 1 ==> t.flights[|s.flights|].kind == ConfigFetch)
  }

  lemma LaunchAddsOne(s: State, id: Id)
    requires id in s.res && !s.res[id].ended
    ensures OnlyConfigAdded(s, Launch(s, ConfigFetch, id))
  {
    if s.res[id].destroyed {
      LaunchGone(s, ConfigFetch, id);
      ClosedShape(s.(flights := s.flights + [Flight(ConfigFetch, [id], false)],
                     res := s.res[id := s.res[id].(joined := Some(|s.flights|), listening := true)]), |s.flights|, id);
    } else {
      LaunchLive(s, ConfigFetch, id);
    }
  }

  lemma JoinAddsNone(s: State, f: nat, id: Id)
    requires f < |s.flights| && id in s.res && !s.res[id].ended && !s.flights[f].completed
    ensures OnlyConfigAdded(s, Join(s, f, id))
  {
    if s.res[id].destroyed {
      ClosedShape(s.(flights := s.flights[f := s.flights[f].(callers := s.flights[f].callers + [id])],
                     res := s.res[id := s.res[id].(joined := Some(f), listening := true)]), f, id);
    }
  }

  lemma ConfigFlights(s: State, id: Id, destroyed: bool, cached: bool, haveGateway: bool)
    ensures OnlyConfigAdded(s, ArriveConfig(s, id, destroyed, cached, haveGateway))
  {
    ArriveConfigShape(s, id, destroyed, cached, haveGateway);
    var u := s.(res := s.res[id := Res(destroyed, false, 0, None, false)]);
    LaunchAddsOne(u, id);
    if s.configFlight.Some? && s.configFlight.value < |s.flights| && !s.flights[s.configFlight.value].completed {
      JoinAddsNone(u, s.configFlight.value, id);
    }
  }

  /** What one turn does to the flights: they keep their kind, and a POST is opened by the end of a body. */
  ghost predicate FlightTurn(s: State, e: Event, t: State) {
    && |s.flights| <= |t.flights| <= |s.flights| + 1
    && (forall f :: 0 <= f < |s.flights| ==> t.flights[f].kind == s.flights[f].kind)
    && (|t.flights| == |s.flights| + 1 && t.flights[|s.flights|].kind.Post? ==> e == EBodyEnd(t.flights[|s.flights|].kind.owner))
  }

  /** The flights of a run, without the rest of it. */
  ghost predicate FlightRun(states: seq<State>, events: seq<Event>) {
    && |states| == |events| + 1 && states[0].flights == []
    && forall n {:trigger events[n]} :: 0 <= n < |events| ==> FlightTurn(states[n], events[n], states[n + 1])
  }

  lemma TurnOfFlights(l: Limits, states: seq<State>, events: seq<Event>, n: nat)
    requires Run(l, states, events) && n < |events|
    ensures FlightTurn(states[n], events[n], states[n + 1])
  {
    TurnOf(l, states, events, n);
    StepFlights(l, states[n], events[n]);
  }

  lemma RunOfFlights(l: Limits, states: seq<State>, events: seq<Event>)
    requires Run(l, states, events)
    ensures FlightRun(states, events)
  {
    forall n | 0 <= n < |events| ensures FlightTurn(states[n], events[n], states[n + 1]) { TurnOfFlights(l, states, events, n); }
  }

  /** The turn in which a POST was opened. */
  lemma {:induction false} OpenedThen(states: seq<State>, events: seq<Event>, n: nat, f: nat) returns (m: nat)
    requires FlightRun(states, events) && n < |states| && f < |states[n].flights| && states[n].flights[f].kind.Post?
    ensures m < n && m < |events| && events[m] == EBodyEnd(states[n].flights[f].kind.owner)
    ensures |states[m].flights| == f < |states[m + 1].flights|
    decreases n
  {
    assert FlightTurn(states[n - 1], events[n - 1], states[n]);
    if f < |states[n - 1].flights| { m := OpenedThen(states, events, n - 1, f); } else { m := n - 1; }
  }

  /**
   No token, no POST. In any run, every POST to the gateway was opened by the end of a body whose request
   had, before that, been authorized once, alive, with a yes, and never otherwise before or since; the body was not
   given up in between, and no other POST is ever opened for the same request.
   */
  lemma PostIsAuthorized(l: Limits, states: seq<State>, events: seq<Event>, n: nat, f: nat) returns (k: nat, m: nat)
    requires Run(l, states, events) && n < |states| && f < |states[n].flights| && states[n].flights[f].kind.Post?
    ensures var id := states[n].flights[f].kind.owner;
            && k < m < n <= |events| && Passed(states, events, id, k) && OnlyAuth(events, n, id, k)
            && events[m] == EBodyEnd(id) && |states[m].flights| == f && !GivenUp(events, k, m, id)
            && forall g :: 0 <= g < |states[n].flights| && states[n].flights[g].kind == Post(id) ==> g == f
  {
    var s, id := states[n], states[n].flights[f].kind.owner;
    RunKeepsInv(l, states, events, n);
    assert FlightOk(f, s.flights[f], s.res, s.slots, s.configFlight);
    forall g | 0 <= g < |s.flights| && s.flights[g].kind == Post(id) ensures g == f {
      assert FlightOk(g, s.flights[g], s.res, s.slots, s.configFlight);
    }
    RunOfFlights(l, states, events);
    m := OpenedThen(states, events, n, f);
    k := ForwardedExactly(l, states, events, m, id);
    RunKeepsHistory(l, states, events, n, id);
    var k': nat :| OnlyAuth(events, n, id, k');
    assert IsAuth(events[k], id);
  }

  /** Once opened, a flight is there for good. */
  lemma {:induction false} FlightsStay(states: seq<State>, events: seq<Event>, m: nat, n: nat, f: nat)
    requires FlightRun(states, events) && m <= n < |states| && f < |states[m].flights|
    ensures f < |states[n].flights| && states[n].flights[f].kind == states[m].flights[f].kind
    decreases n - m
  {
    if m < n {
      FlightsStay(states, events, m, n - 1, f);
      assert FlightTurn(states[n - 1], events[n - 1], states[n]);
    }
  }

  /** A body once forwarded has its one POST in every later state, under the same number. */
  lemma ForwardedStays(l: Limits, states: seq<State>, events: seq<Event>, m: nat, n: nat, id: Id)
    requires Run(l, states, events) && m < n < |states| && m < |events| && events[m] == EBodyEnd(id)
    requires |states[m + 1].flights| > |states[m].flights|
    ensures forall f :: 0 <= f < |states[n].flights| ==> (states[n].flights[f].kind == Post(id) <==> f == |states[m].flights|)
    ensures |states[m].flights| < |states[n].flights|
  {
    var g := |states[m].flights|;
    var k := ForwardedExactly(l, states, events, m, id);
    RunOfFlights(l, states, events);
    FlightsStay(states, events, m + 1, n, g);
    var j, o := PostIsAuthorized(l, states, events, n, g);
  }

  /**
   A request whose authorization fails is turned away for good: told 401 if it was denied and 503 if it could
   not be decided, unless its socket is gone, in the turn in which authorization settles, and never forwarded.
   */
  lemma RefusedIsNeverForwarded(l: Limits, states: seq<State>, events: seq<Event>, k: nat, n: nat, id: Id)
    requires Run(l, states, events) && k < n < |states| && k < |events| && IsAuth(events[k], id) && events[k].result != Authorized
    ensures id in states[k].res && id in states[k + 1].res
    ensures !states[k].res[id].destroyed ==>
              states[k + 1].res[id].ended && states[k + 1].res[id].status == if events[k].result == Denied then 401 else 503
    ensures forall f :: 0 <= f < |states[n].flights| ==> states[n].flights[f].kind != Post(id)
  {
    TurnOf(l, states, events, k);
    AuthorizeTells(states[k], id, events[k].result);
    if f :| 0 <= f < |states[n].flights| && states[n].flights[f].kind == Post(id) {
      var j, m := PostIsAuthorized(l, states, events, n, f);
      assert false;
    }
  }

  /** What a settled authorization tells its response. */
  lemma AuthorizeTells(s: State, id: Id, result: AuthResult)
    requires id in s.slots && id in s.res
    ensures Authorize(s, id, result).res == if result == Authorized || s.res[id].destroyed then s.res
                                            else s.res[id := s.res[id].(ended := true, status := if result == Denied then 401 else 503)]
  {
  }

  /**
   A request whose authorization says yes while it is alive keeps its slot and is left to send its body,
   with nothing said to it yet.
   */
  lemma PassedIsRead(l: Limits, states: seq<State>, events: seq<Event>, k: nat, id: Id)
    requires Run(l, states, events) && Passed(states, events, id, k)
    ensures k + 1 < |states| && id in states[k + 1].slots && states[k + 1].slots[id].stage == Receiving(false)
    ensures states[k + 1].slots[id].releases == 0 && states[k + 1].res == states[k].res && !states[k].res[id].ended
  {
    TurnOf(l, states, events, k);
    var s := states[k];
    assert SlotOk(id, s.slots[id], s.res[id], s.flights);
    StepMovesStage(l, s, events[k], id);
    AuthorizeTells(s, id, Authorized);
    PassedKeepsSlot(s, id);
  }

  lemma PassedKeepsSlot(s: State, id: Id)
    requires id in s.slots && id in s.res && !s.slots[id].reqDestroyed && !s.res[id].destroyed && !s.slots[id].releaseRequested
    ensures id in Authorize(s, id, Authorized).slots && Authorize(s, id, Authorized).slots[id].releases == s.slots[id].releases
  {
  }

  // ----- When a slot is given back -----

  /** The turn gives back the slot of a request, held before. */
  ghost predicate GivesBack(s: State, e: Event, id: Id)
    requires id in s.slots && id in s.res
  {
    var slot := s.slots[id];
    if IsAuth(e, id) then slot.releaseRequested || slot.reqDestroyed || s.res[id].destroyed
    else !slot.authPending && (e == EAborted(id) || e == EResFinish(id) || e == EResClose(id)
                               || (e == EOversize(id) && slot.stage == Receiving(false)))
  }

  ghost predicate ReleasedAs(s: State, e: Event, id: Id, b: Slot)
    requires id in s.slots && id in s.res
  {
    b.releases == if s.slots[id].releases == 0 && GivesBack(s, e, id) then 1 else s.slots[id].releases
  }

  lemma ReleaseOf(s: State, id: Id, k: Id)
    requires id in s.slots && k in s.slots && (s.slots[id].authPending ==> s.slots[id].releases == 0)
    ensures k in ReleaseSlot(s, id).slots
    ensures ReleaseSlot(s, id).slots[k].releases ==
            if k == id && !s.slots[id].authPending && s.slots[id].releases == 0 then 1 else s.slots[k].releases
  {
  }

  lemma AuthorizeReleases(s: State, id: Id, result: AuthResult, k: Id)
    requires id in s.slots && id in s.res && k in s.slots && k in s.res && s.slots[id].releases == 0
    ensures k in Authorize(s, id, result).slots && ReleasedAs(s, EAuthorize(id, result), k, Authorize(s, id, result).slots[k])
  {
    var gone := s.slots[id].reqDestroyed || s.res[id].destroyed;
    var t := if !result.Authorized? && !s.res[id].destroyed then EndResponse(s, id, if result.Denied? then 401 else 503) else s;
    var u := t.(slots := t.slots[id := t.slots[id].(authPending := false,
                stage := if result.Authorized? && !gone then Receiving(false) else Over)]);
    ReleaseOf(u, id, k);
  }

  lemma AbortReleases(s: State, id: Id, k: Id)
    requires id in s.slots && id in s.res && s.slots[id].stage.Receiving? && !s.slots[id].authPending && k in s.slots && k in s.res
    ensures k in Aborted(s, id).slots && ReleasedAs(s, EAborted(id), k, Aborted(s, id).slots[k])
    ensures k in Oversize(s, id).slots && ReleasedAs(s, EOversize(id), k, Oversize(s, id).slots[k])
  {
    var u := s.(slots := s.slots[id := s.slots[id].(stage := Receiving(true), reqDestroyed := true)]);
    ReleaseOf(u, id, k);
    ReleaseOf(EndResponse(u, id, 413), id, k);
  }

  lemma CloseGivesBack(s: State, id: Id, k: Id)
    requires id in s.res && k in s.slots && k in s.res && (id in s.slots && s.slots[id].authPending ==> s.slots[id].releases == 0)
    ensures k in ResClose(s, id).slots && ReleasedAs(s, EResClose(id), k, ResClose(s, id).slots[k])
  {
    var t := s.(res := s.res[id := s.res[id].(destroyed := true)]);
    var u := if t.res[id].listening && t.res[id].joined.Some? && t.res[id].joined.value < |t.flights|
             then Closed(t, t.res[id].joined.value, id) else t;
    assert u.slots == s.slots;
    if id in u.slots { ReleaseOf(u, id, k); }
  }

  lemma BodyEndReleases(s: State, id: Id, k: Id)
    requires id in s.slots && id in s.res && s.slots[id].stage.Receiving? && k in s.slots && k in s.res
    ensures k in BodyEnd(s, id).slots && BodyEnd(s, id).slots[k].releases == s.slots[k].releases
  {
    if !s.slots[id].stage.aborted && !s.res[id].destroyed {
      LaunchLive(s.(slots := s.slots[id := s.slots[id].(stage := Forwarded(|s.flights|))]), Post(id), id);
    }
  }

  /**
   A slot is given back in a turn, in any run, if and only if it is held and authorization settles for a
   request that is gone or has ended meanwhile, or after authorization the body is aborted or
   exceeds the limit, or the response is flushed or closes.
   */
  lemma GivenBackExactly(l: Limits, states: seq<State>, events: seq<Event>, n: nat, id: Id)
    requires Run(l, states, events) && n < |events| && id in states[n].slots
    ensures id in states[n].res && id in states[n + 1].slots
    ensures states[n + 1].slots[id].releases == if states[n].slots[id].releases == 0 && GivesBack(states[n], events[n], id) then 1
                                                else states[n].slots[id].releases
  {
    TurnOf(l, states, events, n);
    var s := states[n];
    assert SlotOk(id, s.slots[id], s.res[id], s.flights);
    if events[n].EAuthorize? || events[n].EAborted? || events[n].EOversize? || ((events[n].EResClose? || events[n].EResFinish?) && events[n].id in s.slots) {
      assert SlotOk(events[n].id, s.slots[events[n].id], s.res[events[n].id], s.flights);
    }
    StepReleases(l, s, events[n], id);
  }

  lemma StepReleases(l: Limits, s: State, e: Event, id: Id)
    requires Enabled(s, e) && id in s.slots && id in s.res && (e.EArrive? || e.EArriveConfig? ==> e.id !in s.slots)
    requires (e.EAuthorize? || e.EResClose? || e.EResFinish?) && e.id in s.slots && s.slots[e.id].authPending ==> s.slots[e.id].releases == 0
    requires (e.EAborted? || e.EOversize?) && e.id in s.slots ==> !s.slots[e.id].authPending
    ensures id in Apply(l, s, e).slots && ReleasedAs(s, e, id, Apply(l, s, e).slots[id])
  {
    match e
    case EArrive(k, client, rateLimited) => ArriveShape(l, s, k, client, rateLimited);
    case EArriveConfig(k, destroyed, cached, haveGateway) => ConfigKeepsSlots(s, k, destroyed, cached, haveGateway);
    case EAuthorize(k, result) => AuthorizeReleases(s, k, result, id);
    case EAborted(k) => AbortReleases(s, k, id);
    case EOversize(k) => AbortReleases(s, k, id);
    case EBodyEnd(k) => BodyEndReleases(s, k, id);
    case EResFinish(k) => if k in s.slots { ReleaseOf(s, k, id); }
    case EResClose(k) => CloseGivesBack(s, k, id);
    case _ =>
  }

  // ----- What a waiting caller is told -----

  /** The caller is done with flight `f`, with this outcome. */
  ghost predicate DoneWith(t: State, f: nat, id: Id, outcome: Outcome) {
    Terminal(id, f, outcome) in t.outcomes && f < |t.flights| && id !in t.flights[f].callers
  }

  ghost predicate StillWaits(t: State, f: nat, id: Id) {
    f < |t.flights| && id in t.flights[f].callers && !t.flights[f].completed
  }

  lemma FinishTells(s: State, f: nat, status: int, id: Id)
    requires f < |s.flights| && id in s.flights[f].callers && !s.flights[f].completed && id in s.res && !s.res[id].ended
    ensures var t := FinishFlight(s, f, status);
            && DoneWith(t, f, id, if s.res[id].destroyed then Skipped else Answered(status))
            && id in t.res && t.res[id].ended == !s.res[id].destroyed && (t.res[id].ended ==> t.res[id].status == status)
  {
    var callers, t := s.flights[f].callers, FinishFlight(s, f, status);
    var i :| 0 <= i < |callers| && callers[i] == id;
    assert t.outcomes[|s.outcomes| + i] == Verdicts(s.res, callers, f, status)[i];
  }

  /** A close tells the caller that closes, and lets the others wait. */
  lemma CloseTells(l: Limits, s: State, k: Id, f: nat, id: Id)
    requires Inv(l, s) && k in s.res && f < |s.flights| && id in s.flights[f].callers
    ensures id in s.res && if k == id then DoneWith(ResClose(s, k), f, id, Disconnected) else StillWaits(ResClose(s, k), f, id)
  {
    assert FlightOk(f, s.flights[f], s.res, s.slots, s.configFlight) && ResOk(k, s.res[k], s.flights, s.outcomes);
    var t := s.(res := s.res[k := s.res[k].(destroyed := true)]);
    CloseFlights(s, k);
    if s.res[k].listening {
      var g := s.res[k].joined.value;
      assert FlightOk(g, s.flights[g], s.res, s.slots, s.configFlight);
      ClosedShape(t, g, k);
      RemoveProperties(s.flights[g].callers, k);
      CloseOutcomes(s, t, g, k);
    }
  }

  lemma CloseOutcomes(s: State, t: State, g: nat, k: Id)
    requires k in s.res && t == s.(res := s.res[k := s.res[k].(destroyed := true)])
    requires s.res[k].listening && s.res[k].joined == Some(g) && g < |s.flights| && !s.res[k].ended && !s.flights[g].completed
    ensures Terminal(k, g, Disconnected) in ResClose(s, k).outcomes
  {
    ClosedShape(t, g, k);
    var u := Closed(t, g, k);
    assert u.outcomes == s.outcomes + [Terminal(k, g, Disconnected)];
    assert u.outcomes[|s.outcomes|] == Terminal(k, g, Disconnected);
    if k in u.slots { ReleaseKeepsOutcomes(u, k); }
  }

  lemma ReleaseKeepsOutcomes(s: State, id: Id)
    requires id in s.slots
    ensures ReleaseSlot(s, id).outcomes == s.outcomes
  {
  }

  /** A config request takes nobody else off a flight. */
  lemma ArrivalLetsWait(l: Limits, s: State, e: Event, f: nat, id: Id)
    requires Inv(l, s) && Enabled(s, e) && e.EArriveConfig? && f < |s.flights| && id in s.flights[f].callers
    ensures StillWaits(Apply(l, s, e), f, id)
  {
    assert FlightOk(f, s.flights[f], s.res, s.slots, s.configFlight);
    ArriveConfigShape(s, e.id, e.destroyed, e.cached, e.haveGateway);
    ArrivalCompletesNothing(l, s, e.id, e.destroyed, e.cached, e.haveGateway, f);
    forall g | 0 <= g < |s.flights| ensures Distinct(s.flights[g].callers) && e.id !in s.flights[g].callers {
      assert FlightOk(g, s.flights[g], s.res, s.slots, s.configFlight);
    }
    if !s.draining && !e.cached && e.haveGateway {
      ShareLetsWait(s.(res := s.res[e.id := Res(e.destroyed, false, 0, None, false)]), e.id, f, id);
    }
  }

  lemma ShareLetsWait(s: State, k: Id, f: nat, id: Id)
    requires k in s.res && !s.res[k].ended && f < |s.flights| && id in s.flights[f].callers && k != id
    requires forall g :: 0 <= g < |s.flights| ==> Distinct(s.flights[g].callers) && k !in s.flights[g].callers
    ensures f < |ShareConfig(s, k).flights| && id in ShareConfig(s, k).flights[f].callers
  {
    if s.configFlight.Some? && s.configFlight.value < |s.flights| && !s.flights[s.configFlight.value].completed {
      var g := s.configFlight.value;
      var callers := s.flights[g].callers + [k];
      RemoveProperties(callers, k);
      assert id in s.flights[g].callers ==> id in callers;
      if s.res[k].destroyed {
        ClosedShape(s.(flights := s.flights[g := s.flights[g].(callers := callers)],
                       res := s.res[k := s.res[k].(joined := Some(g), listening := true)]), g, k);
      }
    } else {
      LaunchKeepsFlights(s, ConfigFetch, k);
    }
  }

  /**
   A waiting caller, in any turn of any run: if its exchange with the gateway ends it is sent that status, or
   skipped if its socket is gone; if it closes it is logged as disconnected and sent nothing; and in
   every other turn, whatever becomes of the other callers, it goes on waiting.
   */
  lemma WaitingCallerIsTold(l: Limits, states: seq<State>, events: seq<Event>, n: nat, f: nat, id: Id)
    requires Run(l, states, events) && n < |events| && f < |states[n].flights| && id in states[n].flights[f].callers
    ensures id in states[n].res && id in states[n + 1].res && !states[n].res[id].ended
    ensures var s, t, e := states[n], states[n + 1], events[n];
            if e.EFlightDone? && e.f == f then
              && DoneWith(t, f, id, if s.res[id].destroyed then Skipped else Answered(e.status))
              && t.res[id].ended == !s.res[id].destroyed && (t.res[id].ended ==> t.res[id].status == e.status)
            else if e == EResClose(id) then DoneWith(t, f, id, Disconnected)
            else StillWaits(t, f, id) && !t.res[id].ended
  {
    TurnOf(l, states, events, n);
    var s, t, e := states[n], states[n + 1], events[n];
    assert FlightOk(f, s.flights[f], s.res, s.slots, s.configFlight);
    match e
    case EFlightDone(g, status) =>
      if g == f { FinishTells(s, f, status, id); } else { assert FlightOk(f, t.flights[f], t.res, t.slots, t.configFlight); }
    case EResClose(k) =>
      CloseTells(l, s, k, f, id);
      CloseKeepsRes(s, k);
      assert FlightOk(f, t.flights[f], t.res, t.slots, t.configFlight);
    case EArriveConfig(_, _, _, _) =>
      ArrivalLetsWait(l, s, e, f, id);
      assert FlightOk(f, t.flights[f], t.res, t.slots, t.configFlight);
    case _ =>
      OtherTurnsKeepFlights(l, s, e);
      assert FlightOk(f, t.flights[f], t.res, t.slots, t.configFlight);
  }

  lemma CloseKeepsRes(s: State, k: Id)
    requires k in s.res
    ensures ResClose(s, k).res.Keys == s.res.Keys
  {
    var t := s.(res := s.res[k := s.res[k].(destroyed := true)]);
    var u := if t.res[k].listening && t.res[k].joined.Some? && t.res[k].joined.value < |t.flights|
             then Closed(t, t.res[k].joined.value, k) else t;
    if t.res[k].joined.Some? && t.res[k].joined.value < |t.flights| { ClosedFrame(t, t.res[k].joined.value, k); }
    if k in u.slots { ReleaseFrame(u, k); }
  }

  // ----- What is sent -----

  /** What a turn has sent by its end on a response that was there before. */
  ghost function SentBy(s: State, e: Event, id: Id): (bool, int)
    requires id in s.res
  {
    var r := s.res[id];
    if IsAuth(e, id) && e.result != Authorized && !r.destroyed then (true, if e.result == Denied then 401 else 503)
    else if e == EOversize(id) && id in s.slots && s.slots[id].stage == Receiving(false) then (true, 413)
    else if e.EFlightDone? && e.f < |s.flights| && id in s.flights[e.f].callers && !r.destroyed then (true, e.status)
    else (r.ended, r.status)
  }

  ghost predicate Sent(t: State, id: Id, what: (bool, int)) {
    id in t.res && t.res[id].ended == what.0 && t.res[id].status == what.1
  }

  /** Nothing is sent from `s` to `t`. */
  ghost predicate Silent(s: State, t: State) {
    forall k {:trigger s.res[k]} :: k in s.res ==> Sent(t, k, (s.res[k].ended, s.res[k].status))
  }

  lemma ClosedIsSilent(s: State, f: nat, id: Id)
    requires f < |s.flights| && id in s.res
    ensures Silent(s, Closed(s, f, id))
  {
    if !s.res[id].ended && !s.flights[f].completed { ClosedShape(s, f, id); }
  }

  lemma JoinIsSilent(s: State, f: nat, id: Id)
    requires f < |s.flights| && id in s.res
    ensures Silent(s, Join(s, f, id))
  {
    var u := s.(flights := s.flights[f := s.flights[f].(callers := s.flights[f].callers + [id])],
                res := s.res[id := s.res[id].(joined := Some(f), listening := true)]);
    ClosedIsSilent(u, f, id);
    assert Silent(s, u);
    forall k | k in s.res ensures Sent(Join(s, f, id), k, (s.res[k].ended, s.res[k].status)) {
      assert k in u.res && u.res[k].ended == s.res[k].ended && u.res[k].status == s.res[k].status;
    }
  }

  lemma ShareIsSilent(s: State, id: Id)
    requires id in s.res
    ensures Silent(s, ShareConfig(s, id))
  {
    JoinIsSilent(s.(flights := s.flights + [Flight(ConfigFetch, [], false)]), |s.flights|, id);
    if s.configFlight.Some? && s.configFlight.value < |s.flights| { JoinIsSilent(s, s.configFlight.value, id); }
  }

  lemma ArrivalIsSilent(s: State, id: Id, destroyed: bool, cached: bool, haveGateway: bool)
    requires id !in s.res
    ensures Silent(s, ArriveConfig(s, id, destroyed, cached, haveGateway))
  {
    var u := s.(res := s.res[id := Res(destroyed, false, 0, None, false)]);
    ArriveConfigShape(s, id, destroyed, cached, haveGateway);
    ShareIsSilent(u, id);
    forall k | k in s.res ensures Sent(ShareConfig(u, id), k, (s.res[k].ended, s.res[k].status)) { assert u.res[k] == s.res[k]; }
  }

  lemma CloseIsSilent(s: State, id: Id)
    requires id in s.res
    ensures Silent(s, ResClose(s, id))
  {
    var t := s.(res := s.res[id := s.res[id].(destroyed := true)]);
    var u := if t.res[id].listening && t.res[id].joined.Some? && t.res[id].joined.value < |t.flights|
             then Closed(t, t.res[id].joined.value, id) else t;
    if t.res[id].joined.Some? && t.res[id].joined.value < |t.flights| { ClosedIsSilent(t, t.res[id].joined.value, id); }
    if id in u.slots { ReleaseFrame(u, id); }
    assert ResClose(s, id).res == u.res;
    forall k | k in s.res ensures Sent(u, k, (s.res[k].ended, s.res[k].status)) {
      assert k in t.res && t.res[k].ended == s.res[k].ended && t.res[k].status == s.res[k].status;
    }
  }

  lemma BodyEndIsSilent(s: State, id: Id)
    requires id in s.slots && id in s.res && s.slots[id].stage.Receiving?
    ensures Silent(s, BodyEnd(s, id))
  {
    if !s.slots[id].stage.aborted && !s.res[id].destroyed {
      LaunchLive(s.(slots := s.slots[id := s.slots[id].(stage := Forwarded(|s.flights|))]), Post(id), id);
    }
  }

  lemma OversizeTells(s: State, id: Id)
    requires id in s.slots && id in s.res && s.slots[id].stage.Receiving?
    ensures Oversize(s, id).res == if s.slots[id].stage.aborted then s.res else s.res[id := s.res[id].(ended := true, status := 413)]
  {
    ReleaseFrame(EndResponse(s.(slots := s.slots[id := s.slots[id].(stage := Receiving(true), reqDestroyed := true)]), id, 413), id);
  }

  lemma FinishSends(s: State, f: nat, status: int, id: Id)
    requires f < |s.flights| && id in s.res && (s.flights[f].completed ==> s.flights[f].callers == [])
    requires id in s.flights[f].callers ==> !s.res[id].ended
    ensures Sent(FinishFlight(s, f, status), id, SentBy(s, EFlightDone(f, status), id))
  {
  }

  lemma StepSends(l: Limits, s: State, e: Event, id: Id)
    requires Enabled(s, e) && id in s.res
    requires e.EFlightDone? ==> (s.flights[e.f].completed ==> s.flights[e.f].callers == []) && (id in s.flights[e.f].callers ==> !s.res[id].ended)
    ensures Sent(Apply(l, s, e), id, SentBy(s, e, id))
  {
    match e
    case EArrive(k, client, rateLimited) => ArriveShape(l, s, k, client, rateLimited);
    case EArriveConfig(k, destroyed, cached, haveGateway) => ArrivalIsSilent(s, k, destroyed, cached, haveGateway);
    case EAuthorize(k, result) => AuthorizeTells(s, k, result);
    case EAborted(k) => ReleaseFrame(s.(slots := s.slots[k := s.slots[k].(stage := Receiving(true), reqDestroyed := true)]), k);
    case EOversize(k) => OversizeTells(s, k);
    case EBodyEnd(k) => BodyEndIsSilent(s, k);
    case EResFinish(k) => if k in s.slots { ReleaseFrame(s, k); }
    case EResClose(k) => CloseIsSilent(s, k);
    case EFlightDone(f, status) => FinishSends(s, f, status, id);
    case _ =>
  }

  /**
   What is sent on a response, in any turn of any run after the one it arrived in: 401 or 503 when its
   authorization fails, 413 when its body is too large, the gateway's status when its exchange ends, each only as
   said in `SentBy`, and nothing in any other turn.
   */
  lemma SentExactly(l: Limits, states: seq<State>, events: seq<Event>, n: nat, id: Id)
    requires Run(l, states, events) && n < |events| && id in states[n].res
    ensures Sent(states[n + 1], id, SentBy(states[n], events[n], id))
  {
    TurnOf(l, states, events, n);
    var s, e := states[n], events[n];
    if e.EFlightDone? { assert FlightOk(e.f, s.flights[e.f], s.res, s.slots, s.configFlight); }
    StepSends(l, s, e, id);
  }

  // ----- Config requests -----

  /** An incomplete config fetch, if there is one, is the one that callers join. */
  lemma OpenConfigIsShared(l: Limits, s: State)
    requires Inv(l, s)
    ensures var open := s.configFlight.Some? && s.configFlight.value < |s.flights| && !s.flights[s.configFlight.value].completed;
            OpenConfigs(s) == if open then {s.configFlight.value} else {}
  {
    forall g | g in OpenConfigs(s) ensures s.configFlight == Some(g) {
      assert FlightOk(g, s.flights[g], s.res, s.slots, s.configFlight);
    }
  }

  /** A request that has to wait, before it shares: its response is there, alive or not. */
  ghost predicate Sharing(s: State, u: State, id: Id, destroyed: bool) {
    id !in s.res && u == s.(res := s.res[id := Res(destroyed, false, 0, None, false)])
  }

  lemma LiveShares(l: Limits, s: State, u: State, id: Id) returns (f: nat)
    requires Inv(l, s) && Sharing(s, u, id, false)
    ensures var t := ShareConfig(u, id);
            && StillWaits(t, f, id) && f < |t.flights| && t.flights[f].kind == ConfigFetch
            && |t.flights| == |s.flights| + (if OpenConfigs(s) == {} then 1 else 0)
            && (OpenConfigs(s) == {} || OpenConfigs(s) == {f})
  {
    OpenConfigIsShared(l, s);
    if OpenConfigs(s) != {} {
      f := s.configFlight.value;
      assert ShareConfig(u, id).flights[f].callers[|s.flights[f].callers|] == id;
    } else {
      f := |s.flights|;
      LaunchLive(u, ConfigFetch, id);
    }
  }

  /** Somebody who joins at the end and leaves again leaves the others as they were. */
  lemma {:induction false} RemoveLast(callers: seq<Id>, id: Id)
    requires id !in callers
    ensures Remove(callers + [id], id) == callers
  {
    if callers != [] {
      assert (callers + [id])[1..] == callers[1..] + [id];
      RemoveLast(callers[1..], id);
    }
  }

  lemma GoneShares(l: Limits, s: State, u: State, id: Id) returns (f: nat)
    requires Inv(l, s) && Sharing(s, u, id, true)
    ensures var t := ShareConfig(u, id);
            && DoneWith(t, f, id, Disconnected)
            && t.flights == if OpenConfigs(s) == {} then s.flights + [Flight(ConfigFetch, [], true)] else s.flights
  {
    OpenConfigIsShared(l, s);
    f := if OpenConfigs(s) != {} then s.configFlight.value else |s.flights|;
    var before := if OpenConfigs(s) != {} then s.flights else s.flights + [Flight(ConfigFetch, [], false)];
    if f < |s.flights| { assert FlightOk(f, s.flights[f], s.res, s.slots, s.configFlight); }
    var joined := u.(flights := before[f := before[f].(callers := before[f].callers + [id])],
                     res := u.res[id := u.res[id].(joined := Some(f), listening := true)]);
    RemoveLast(before[f].callers, id);
    ClosedShape(joined, f, id);
    var t := Closed(joined, f, id);
    assert t.flights == if OpenConfigs(s) == {} then s.flights + [Flight(ConfigFetch, [], true)] else s.flights;
    assert t.outcomes[|s.outcomes|] == Terminal(id, f, Disconnected);
    assert ShareConfig(u, id).flights == t.flights && ShareConfig(u, id).outcomes == t.outcomes;
  }

  /** The outcome of a config request that has to wait. */
  ghost predicate SharedBy(s: State, t: State, id: Id, destroyed: bool, f: nat) {
    if destroyed then
      && DoneWith(t, f, id, Disconnected) && OpenConfigs(t) == OpenConfigs(s)
      && t.flights == if OpenConfigs(s) == {} then s.flights + [Flight(ConfigFetch, [], true)] else s.flights
    else
      && StillWaits(t, f, id) && OpenConfigs(t) == {f} && id in t.res && !t.res[id].ended
      && |t.flights| == |s.flights| + (if OpenConfigs(s) == {} then 1 else 0)
      && (OpenConfigs(s) == {} || OpenConfigs(s) == {f})
  }

  lemma SharesConfig(l: Limits, s: State, t: State, id: Id, destroyed: bool) returns (f: nat)
    requires Inv(l, s) && Inv(l, t) && id !in s.res && t == ShareConfig(s.(res := s.res[id := Res(destroyed, false, 0, None, false)]), id)
    ensures SharedBy(s, t, id, destroyed, f)
  {
    var u := s.(res := s.res[id := Res(destroyed, false, 0, None, false)]);
    if destroyed {
      f := GoneShares(l, s, u, id);
      SameOpenConfigs(s, t);
    } else {
      f := LiveShares(l, s, u, id);
      WaitsOnTheOne(l, t, id, f);
    }
  }

  lemma SameOpenConfigs(s: State, t: State)
    requires t.flights == s.flights || t.flights == s.flights + [Flight(ConfigFetch, [], true)]
    ensures OpenConfigs(t) == OpenConfigs(s)
  {
  }

  /** Whoever waits for a config fetch waits for the only one, with nothing sent yet. */
  lemma WaitsOnTheOne(l: Limits, t: State, id: Id, f: nat)
    requires Inv(l, t) && StillWaits(t, f, id) && t.flights[f].kind == ConfigFetch
    ensures OpenConfigs(t) == {f} && id in t.res && !t.res[id].ended
  {
    OpenConfigIsShared(l, t);
    assert f in OpenConfigs(t);
    assert FlightOk(f, t.flights[f], t.res, t.slots, t.configFlight);
  }

  /**
   A config request, in any run: it is told 503 while draining, 200 from the cache or 502 without a gateway, and
   touches no flight. Otherwise, if its socket is alive, it waits for the one incomplete config fetch, which it
   has opened exactly if there was none. If its socket is gone it is logged as disconnected and leaves the fetch of
   others running, and one that it opened is cancelled in the same turn.
   */
  lemma ConfigRequestWaits(l: Limits, states: seq<State>, events: seq<Event>, n: nat) returns (f: nat)
    requires Run(l, states, events) && n < |events| && events[n].EArriveConfig?
    ensures var s, t, e := states[n], states[n + 1], events[n];
            && e.id !in s.res
            && if s.draining || e.cached || !e.haveGateway then
                 && t.flights == s.flights && e.id in t.res && t.res[e.id].ended
                 && t.res[e.id].status == if s.draining then 503 else if e.cached then 200 else 502
               else SharedBy(s, t, e.id, e.destroyed, f)
  {
    TurnOf(l, states, events, n);
    var s, t, e := states[n], states[n + 1], events[n];
    ArriveConfigShape(s, e.id, e.destroyed, e.cached, e.haveGateway);
    f := 0;
    if !s.draining && !e.cached && e.haveGateway { f := SharesConfig(l, s, t, e.id, e.destroyed); }
  }

  /** Flights touch neither the flags of the process nor which responses there are. */
  ghost predicate OnlyFlights(s: State, t: State) {
    t.draining == s.draining && t.httpClosed == s.httpClosed && t.exit == s.exit && t.res.Keys == s.res.Keys
  }

  lemma ClosedFrame(s: State, f: nat, id: Id)
    requires f < |s.flights| && id in s.res
    ensures OnlyFlights(s, Closed(s, f, id))
  {
  }

  lemma JoinFrame(s: State, f: nat, id: Id)
    requires f < |s.flights| && id in s.res
    ensures OnlyFlights(s, Join(s, f, id))
  {
    ClosedFrame(s.(flights := s.flights[f := s.flights[f].(callers := s.flights[f].callers + [id])],
                   res := s.res[id := s.res[id].(joined := Some(f), listening := true)]), f, id);
  }

  lemma ShareFrame(s: State, id: Id)
    requires id in s.res
    ensures OnlyFlights(s, ShareConfig(s, id))
  {
    JoinFrame(s.(flights := s.flights + [Flight(ConfigFetch, [], false)]), |s.flights|, id);
    if s.configFlight.Some? && s.configFlight.value < |s.flights| { JoinFrame(s, s.configFlight.value, id); }
  }

  // ----- Shutdown -----

  ghost predicate Happened(events: seq<Event>, n: nat, e: Event)
    requires n <= |events|
  {
    exists k :: 0 <= k < n && events[k] == e
  }

  /** Only these turns move the flags of the process. */
  ghost predicate FlagsMove(s: State, e: Event, t: State) {
    && t.draining == (s.draining || e == EShutdown) && t.httpClosed == (s.httpClosed || e == EHttpClosed)
    && (t.exit == Some(1) <==> e == EHardExit)
  }

  lemma ReleaseKeepsFlags(s: State, id: Id)
    requires id in s.slots && s.exit.None?
    ensures var t := ReleaseSlot(s, id); t.draining == s.draining && t.httpClosed == s.httpClosed && t.exit != Some(1)
  {
  }

  lemma AuthorizeKeepsFlags(s: State, id: Id, result: AuthResult)
    requires id in s.slots && id in s.res && s.exit.None?
    ensures FlagsMove(s, EAuthorize(id, result), Authorize(s, id, result))
  {
    var gone := s.slots[id].reqDestroyed || s.res[id].destroyed;
    var t := if !result.Authorized? && !s.res[id].destroyed then EndResponse(s, id, if result.Denied? then 401 else 503) else s;
    ReleaseKeepsFlags(t.(slots := t.slots[id := t.slots[id].(authPending := false,
                         stage := if result.Authorized? && !gone then Receiving(false) else Over)]), id);
  }

  lemma CloseKeepsFlags(s: State, id: Id)
    requires id in s.res && s.exit.None?
    ensures FlagsMove(s, EResClose(id), ResClose(s, id))
  {
    var t := s.(res := s.res[id := s.res[id].(destroyed := true)]);
    var u := if t.res[id].listening && t.res[id].joined.Some? && t.res[id].joined.value < |t.flights|
             then Closed(t, t.res[id].joined.value, id) else t;
    if t.res[id].joined.Some? && t.res[id].joined.value < |t.flights| { ClosedFrame(t, t.res[id].joined.value, id); }
    if id in u.slots { ReleaseKeepsFlags(u, id); }
  }

  lemma ConfigKeepsFlags(s: State, id: Id, destroyed: bool, cached: bool, haveGateway: bool)
    ensures var t := ArriveConfig(s, id, destroyed, cached, haveGateway);
            t.draining == s.draining && t.httpClosed == s.httpClosed && t.exit == s.exit
  {
    ArriveConfigShape(s, id, destroyed, cached, haveGateway);
    ShareFrame(s.(res := s.res[id := Res(destroyed, false, 0, None, false)]), id);
  }

  lemma BodyEndKeepsFlags(s: State, id: Id)
    requires id in s.slots && id in s.res && s.slots[id].stage.Receiving?
    ensures var t := BodyEnd(s, id); t.draining == s.draining && t.httpClosed == s.httpClosed && t.exit == s.exit
  {
    if !s.slots[id].stage.aborted && !s.res[id].destroyed {
      LaunchLive(s.(slots := s.slots[id := s.slots[id].(stage := Forwarded(|s.flights|))]), Post(id), id);
    }
  }

  lemma StepMovesFlags(l: Limits, s: State, e: Event)
    requires Enabled(s, e)
    ensures FlagsMove(s, e, Apply(l, s, e))
  {
    match e
    case EArrive(k, client, rateLimited) => ArriveShape(l, s, k, client, rateLimited);
    case EArriveConfig(k, destroyed, cached, haveGateway) => ConfigKeepsFlags(s, k, destroyed, cached, haveGateway);
    case EAuthorize(k, result) => AuthorizeKeepsFlags(s, k, result);
    case EAborted(k) => ReleaseKeepsFlags(s.(slots := s.slots[k := s.slots[k].(stage := Receiving(true), reqDestroyed := true)]), k);
    case EOversize(k) =>
      ReleaseKeepsFlags(EndResponse(s.(slots := s.slots[k := s.slots[k].(stage := Receiving(true), reqDestroyed := true)]), k, 413), k);
    case EBodyEnd(k) => BodyEndKeepsFlags(s, k);
    case EResFinish(k) => if k in s.slots { ReleaseKeepsFlags(s, k); }
    case EResClose(k) => CloseKeepsFlags(s, k);
    case _ =>
  }

  /**
   The relay drains exactly from the shutdown signal on, HTTP is closed exactly after its close callback, and the
   process has exited with 1 exactly if the hard deadline struck.
   */
  lemma {:induction false} FlagsAreExact(l: Limits, states: seq<State>, events: seq<Event>, n: nat)
    requires Run(l, states, events) && n < |states|
    ensures states[n].draining <==> Happened(events, n, EShutdown)
    ensures states[n].httpClosed <==> Happened(events, n, EHttpClosed)
    ensures states[n].exit == Some(1) <==> Happened(events, n, EHardExit)
  {
    if n > 0 {
      FlagsAreExact(l, states, events, n - 1);
      StepMovesFlags(l, states[n - 1], events[n - 1]);
      HappenedNext(events, n - 1, EShutdown);
      HappenedNext(events, n - 1, EHttpClosed);
      HappenedNext(events, n - 1, EHardExit);
    }
  }

  lemma HappenedNext(events: seq<Event>, n: nat, e: Event)
    requires n < |events|
    ensures Happened(events, n + 1, e) <==> Happened(events, n, e) || events[n] == e
  {
  }
}
