/**
 The relay's event handlers as they are written: closures over mutable counters, maps and flags
 (ohttp-relay/server.js). Each method is proved to perform exactly the turn of `Relay` that models it,
 so the theorems over runs are theorems about sequences of these calls.
 */
module RelayServer {
  import opened Prelude
  import opened Relay
  import opened RelayInvariant

  class Server {
    const limits: Limits
    var inflight: int
    var clientInflight: map<Client, int>
    var draining: bool
    var httpClosed: bool
    var exit: Option<int>
    var res: map<Id, Res>
    var slots: map<Id, Slot>
    var flights: seq<Flight>
    var configFlight: Option<nat>
    /** What each caller of a flight was told, in order. */
    ghost var outcomes: seq<Terminal>

    ghost function View(): State
      reads this
    {
      State(inflight, clientInflight, draining, httpClosed, exit, res, slots, flights, configFlight, outcomes)
    }

    /** The process is running and its state is one a run can reach. */
    ghost predicate Valid()
      reads this
    {
      exit.None? && Inv(limits, View())
    }

    constructor (limits: Limits)
      ensures View() == START && Valid() && this.limits == limits
    {
      this.limits := limits;
      inflight, clientInflight := 0, map[];
      draining, httpClosed, exit := false, false, None;
      res, slots := map[], map[];
      flights, configFlight, outcomes := [], None, [];
      new;
      assert View() == START;
      assert Run(limits, [START], []);
      RunKeepsInv(limits, [START], [], 0);
    }

    method FinishDrain()
      modifies this
      ensures View() == Relay.FinishDrain(old(View()))
    {
      if draining && httpClosed && inflight == 0 { exit := Some(0); }
    }

    /** writeHead and end. */
    method SendStatus(id: Id, status: int)
      requires id in res
      modifies `res
      ensures res == old(res)[id := old(res)[id].(ended := true, status := status)]
    {
      res := res[id := res[id].(ended := true, status := status)];
    }

    method ReleaseSlot(id: Id)
      requires id in slots && (slots[id].releases == 0 && !slots[id].authPending ==> slots[id].client in clientInflight)
      modifies this
      ensures View() == Relay.ReleaseSlot(old(View()), id)
    {
      if slots[id].authPending {
        slots := slots[id := slots[id].(releaseRequested := true)];
        return;
      }
      if slots[id].releases == 0 {
        slots := slots[id := slots[id].(releases := slots[id].releases + 1)];
        inflight := inflight - 1;
        var remaining := clientInflight[slots[id].client] - 1;
        if remaining == 0 {
          clientInflight := clientInflight - {slots[id].client};
        } else {
          clientInflight := clientInflight[slots[id].client := remaining];
        }
        FinishDrain();
      }
    }

    /** Answers the callers of a flight in joining order, each at most once. */
    method SettleCallers(callers: seq<Id>, f: nat, status: int)
      requires Distinct(callers) && forall id :: id in callers ==> id in res
      modifies `res, `outcomes
      ensures res == Settle(old(res), callers, status)
      ensures outcomes == old(outcomes) + Verdicts(old(res), callers, f, status)
    {
      for i := 0 to |callers|
        invariant res == Settle(old(res), callers[..i], status)
        invariant outcomes == old(outcomes) + Verdicts(old(res), callers[..i], f, status)
      {
        var caller := callers[i];
        assert caller !in callers[..i] && res[caller] == old(res)[caller];
        SettleStep(old(res), callers, i, f, status);
        if !res[caller].destroyed && !res[caller].ended {
          res := res[caller := res[caller].(listening := false, ended := true, status := status)];
          outcomes := outcomes + [Terminal(caller, f, Answered(status))];
        } else {
          res := res[caller := res[caller].(listening := false)];
          outcomes := outcomes + [Terminal(caller, f, Skipped)];
        }
      }
      assert callers[..|callers|] == callers;
    }

    /** Completes a flight, once. */
    method Finish(f: nat, status: int)
      requires f < |flights| && Distinct(flights[f].callers)
      requires forall id :: id in flights[f].callers ==> id in res
      modifies this
      ensures View() == FinishFlight(old(View()), f, status)
    {
      if flights[f].completed { return; }
      var callers := flights[f].callers;
      if flights[f].kind.ConfigFetch? { configFlight := None; }
      SettleCallers(callers, f, status);
      flights := flights[f := flights[f].(completed := true, callers := [])];
    }

    /** The 'close' listener a flight attaches to a caller. */
    method OnCallerClosed(f: nat, id: Id)
      requires f < |flights| && id in res
      modifies this
      ensures View() == Closed(old(View()), f, id)
    {
      if res[id].ended || flights[f].completed { return; }
      flights := flights[f := flights[f].(callers := Remove(flights[f].callers, id))];
      res := res[id := res[id].(listening := false)];
      outcomes := outcomes + [Terminal(id, f, Disconnected)];
      if |flights[f].callers| == 0 { Finish(f, 499); }
    }

    /** `add`: false when the flight has already completed. */
    method Add(f: nat, id: Id) returns (joined: bool)
      requires f < |flights| && id in res
      modifies this
      ensures joined == !old(flights[f].completed)
      ensures View() == if joined then Join(old(View()), f, id) else old(View())
    {
      if flights[f].completed { return false; }
      flights := flights[f := flights[f].(callers := flights[f].callers + [id])];
      res := res[id := res[id].(joined := Some(f), listening := true)];
      if res[id].destroyed { OnCallerClosed(f, id); }
      return true;
    }

    /** `proxyGatewayRequest`. */
    method Proxy(kind: Kind, id: Id) returns (f: nat)
      requires id in res
      modifies this
      ensures f == old(|flights|) && View() == Launch(old(View()), kind, id)
    {
      f := |flights|;
      flights := flights + [Flight(kind, [], false)];
      var joined := Add(f, id);
    }

    method OnRelayRequest(id: Id, client: Client, rateLimited: bool)
      requires Valid() && id !in res
      modifies this
      ensures View() == Arrive(limits, old(View()), id, client, rateLimited) && Valid()
    {
      ArriveKeepsInv(limits, View(), id, client, rateLimited);
      ArriveShape(limits, View(), id, client, rateLimited);
      res := res[id := Res(false, false, 0, None, false)];
      if draining {
        SendStatus(id, 503);
        return;
      }
      if rateLimited {
        SendStatus(id, 429);
        return;
      }
      var clientRequests := if client in clientInflight then clientInflight[client] else 0;
      if inflight >= limits.maxInflight || clientRequests >= ClientCap(limits) {
        SendStatus(id, 429);
        return;
      }
      inflight := inflight + 1;
      clientInflight := clientInflight[client := clientRequests + 1];
      slots := slots[id := Slot(client, true, false, 0, Authorizing, false)];
    }

    /** `serveConfig`. */
    method OnConfigRequest(id: Id, destroyed: bool, cached: bool, haveGateway: bool)
      requires Valid() && id !in res
      modifies this
      ensures View() == ArriveConfig(old(View()), id, destroyed, cached, haveGateway) && Inv(limits, View())
    {
      ArriveConfigKeepsInv(limits, View(), id, destroyed, cached, haveGateway);
      ArriveConfigShape(View(), id, destroyed, cached, haveGateway);
      res := res[id := Res(destroyed, false, 0, None, false)];
      if draining {
        SendStatus(id, 503);
        return;
      }
      if cached {
        SendStatus(id, 200);
        return;
      }
      if !haveGateway {
        SendStatus(id, 502);
        return;
      }
      if configFlight.Some? {
        var joined := Add(configFlight.value, id);
        if joined { return; }
      }
      var f := Proxy(ConfigFetch, id);
      configFlight := Some(f);
    }

    /** The authorization promise settles: the catch clauses, then `finally`, then the check after it. */
    method OnAuthorized(id: Id, result: AuthResult)
      requires Valid() && id in slots && slots[id].authPending
      modifies this
      ensures id in old(res) && View() == Authorize(old(View()), id, result) && Inv(limits, View())
    {
      AuthorizeKeepsInv(limits, View(), id, result);
      HeldClientIsCounted(limits, View(), id);
      var gone := slots[id].reqDestroyed || res[id].destroyed;
      var requested := slots[id].releaseRequested;
      if !result.Authorized? && !res[id].destroyed { SendStatus(id, if result.Denied? then 401 else 503); }
      slots := slots[id := slots[id].(authPending := false,
                     stage := if result.Authorized? && !gone then Receiving(false) else Over)];
      if requested || gone { ReleaseSlot(id); }
    }

    method OnAborted(id: Id)
      requires Valid() && id in slots && slots[id].stage.Receiving?
      modifies this
      ensures View() == Aborted(old(View()), id) && Inv(limits, View())
    {
      AbortedKeepsInv(limits, View(), id);
      HeldClientIsCounted(limits, View(), id);
      slots := slots[id := slots[id].(stage := Receiving(true), reqDestroyed := true)];
      ReleaseSlot(id);
    }

    method OnBodyTooLarge(id: Id)
      requires Valid() && id in slots && slots[id].stage.Receiving?
      modifies this
      ensures id in old(res) && View() == Oversize(old(View()), id) && Inv(limits, View())
    {
      OversizeKeepsInv(limits, View(), id);
      HeldClientIsCounted(limits, View(), id);
      if slots[id].stage.aborted { return; }
      slots := slots[id := slots[id].(stage := Receiving(true), reqDestroyed := true)];
      SendStatus(id, 413);
      ReleaseSlot(id);
    }

    method OnBodyEnd(id: Id)
      requires Valid() && id in slots && slots[id].stage.Receiving?
      modifies this
      ensures id in old(res) && View() == BodyEnd(old(View()), id) && Inv(limits, View())
    {
      BodyEndKeepsInv(limits, View(), id);
      if slots[id].stage.aborted || res[id].destroyed {
        slots := slots[id := slots[id].(stage := Over)];
        return;
      }
      slots := slots[id := slots[id].(stage := Forwarded(|flights|))];
      var f := Proxy(Post(id), id);
    }

    /** Both 'close' listeners of a response: the flight's was prepended, so it runs first. */
    method OnResponseClosed(id: Id)
      requires Valid() && id in res
      modifies this
      ensures View() == ResClose(old(View()), id) && Inv(limits, View())
    {
      ResCloseKeepsInv(limits, View(), id);
      assert ResOk(id, res[id], flights, outcomes);
      if id in slots { HeldClientIsCounted(limits, View(), id); }
      RunCloseListeners(id);
    }

    method OnResponseFinished(id: Id)
      requires Valid() && id in res && res[id].ended
      modifies this
      ensures View() == ResFinish(old(View()), id) && Inv(limits, View())
    {
      ResFinishKeepsInv(limits, View(), id);
      if id in slots {
        HeldClientIsCounted(limits, View(), id);
        ReleaseSlot(id);
      }
    }

    method RunCloseListeners(id: Id)
      requires id in res && (res[id].listening ==> res[id].joined.Some? && res[id].joined.value < |flights|)
      requires id in slots && slots[id].releases == 0 && !slots[id].authPending ==> slots[id].client in clientInflight
      modifies this
      ensures View() == ResClose(old(View()), id)
    {
      res := res[id := res[id].(destroyed := true)];
      if res[id].listening { OnCallerClosed(res[id].joined.value, id); }
      assert slots == old(slots) && clientInflight == old(clientInflight);
      if id in slots { ReleaseSlot(id); }
    }

    method OnGatewayExchangeDone(f: nat, status: int)
      requires Valid() && f < |flights|
      modifies this
      ensures View() == FinishFlight(old(View()), f, status) && Inv(limits, View())
    {
      FinishKeepsInv(limits, View(), f, status);
      assert FlightOk(f, flights[f], res, slots, configFlight);
      Finish(f, status);
    }

    method BeginShutdown()
      requires Valid()
      modifies this
      ensures View() == Apply(limits, old(View()), EShutdown) && Valid()
    {
      StepKeepsInv(limits, View(), EShutdown);
      if draining { return; }
      draining := true;
    }

    /** The callback of `server.close`. */
    method OnHttpClosed()
      requires Valid() && draining && !httpClosed
      modifies this
      ensures View() == Apply(limits, old(View()), EHttpClosed) && Inv(limits, View())
    {
      StepKeepsInv(limits, View(), EHttpClosed);
      httpClosed := true;
      FinishDrain();
    }
  }

  /** A client with a held slot has an entry in the per-client counter. */
  lemma HeldClientIsCounted(l: Limits, s: State, id: Id)
    requires Inv(l, s) && id in s.slots
    ensures id in s.res
    ensures s.slots[id].releases == 0 ==> s.slots[id].client in s.clientInflight
    ensures s.slots[id].authPending ==> s.slots[id].releases == 0
  {
    assert SlotOk(id, s.slots[id], s.res[id], s.flights);
    if s.slots[id].releases == 0 { assert id in HeldBy(s.slots, s.slots[id].client); }
  }

  /** Settling one more caller. */
  lemma SettleStep(res: map<Id, Res>, callers: seq<Id>, i: nat, f: nat, status: int)
    requires i < |callers| && callers[i] in res && callers[i] !in callers[..i]
    ensures Settle(res, callers[..i + 1], status) == Settle(res, callers[..i], status)[callers[i] := Told(res[callers[i]], status)]
    ensures Verdicts(res, callers[..i + 1], f, status) == Verdicts(res, callers[..i], f, status)
              + [Terminal(callers[i], f, if !res[callers[i]].destroyed && !res[callers[i]].ended then Answered(status) else Skipped)]
  {
  }
}
