/** What the relay guarantees in every state of every run. */
module RelayTheorems {
  import opened Prelude
  import opened Relay
  import opened RelayInvariant

  /** `inflight` counts the admitted requests that still hold a slot, `clientInflight` counts them per
      client without zero entries, and both respect their caps. */
  lemma CountersAreExact(l: Limits, states: seq<State>, events: seq<Event>, n: nat, c: Client)
    requires Run(l, states, events) && n < |states|
    ensures var s := states[n];
            && s.inflight == |Held(s.slots)| <= Max(0, l.maxInflight)
            && (c in s.clientInflight <==> HeldBy(s.slots, c) != {})
            && (c in s.clientInflight ==> s.clientInflight[c] == |HeldBy(s.slots, c)| <= ClientCap(l))
  {
    RunKeepsInv(l, states, events, n);
  }

  /** A slot is given back at most once, and never while authorization is pending. */
  lemma ReleasedAtMostOnce(l: Limits, states: seq<State>, events: seq<Event>, n: nat, id: Id)
    requires Run(l, states, events) && n < |states| && id in states[n].slots
    ensures states[n].slots[id].releases <= 1
    ensures states[n].slots[id].authPending ==> states[n].slots[id].releases == 0
  {
    RunKeepsInv(l, states, events, n);
    assert SlotOk(id, states[n].slots[id], states[n].res[id], states[n].flights);
  }

  /** A slot is held as long as the gateway POST of its request is incomplete. */
  lemma PostHoldsSlot(l: Limits, states: seq<State>, events: seq<Event>, n: nat, f: nat)
    requires Run(l, states, events) && n < |states|
    requires f < |states[n].flights| && states[n].flights[f].kind.Post? && !states[n].flights[f].completed
    ensures var owner := states[n].flights[f].kind.owner;
            owner in states[n].slots && states[n].slots[owner].releases == 0 && states[n].slots[owner].stage == Forwarded(f)
  {
    RunKeepsInv(l, states, events, n);
    var s := states[n];
    assert FlightOk(f, s.flights[f], s.res, s.slots, s.configFlight);
    assert SlotOk(s.flights[f].kind.owner, s.slots[s.flights[f].kind.owner], s.res[s.flights[f].kind.owner], s.flights);
  }

  /** The incomplete POSTs of a client, and the incomplete config fetches. */
  ghost function OpenPosts(s: State, c: Client): set<nat> {
    set f | 0 <= f < |s.flights| && !s.flights[f].completed && s.flights[f].kind.Post?
            && s.flights[f].kind.owner in s.slots && s.slots[s.flights[f].kind.owner].client == c
  }

  ghost function OpenConfigs(s: State): set<nat> {
    set f | 0 <= f < |s.flights| && !s.flights[f].completed && s.flights[f].kind.ConfigFetch?
  }

  /** Different POSTs are paid for by different slots. */
  lemma {:induction false} PostsWithinSlots(s: State, fs: set<nat>, ids: set<Id>)
    requires forall f :: f in fs ==> f < |s.flights| && s.flights[f].kind.Post? && s.flights[f].kind.owner in ids
    requires forall f :: f in fs ==> s.flights[f].kind.owner in s.slots && s.slots[s.flights[f].kind.owner].stage == Forwarded(f)
    ensures |fs| <= |ids|
    decreases fs
  {
    if fs != {} {
      var f :| f in fs;
      PostsWithinSlots(s, fs - {f}, ids - {s.flights[f].kind.owner});
    }
  }

  /** At most one config fetch is incomplete, even when one completes inside its own construction. */
  lemma OneConfigFetch(l: Limits, states: seq<State>, events: seq<Event>, n: nat)
    requires Run(l, states, events) && n < |states|
    ensures |OpenConfigs(states[n])| <= 1
  {
    RunKeepsInv(l, states, events, n);
    var s := states[n];
    forall f | f in OpenConfigs(s) ensures s.configFlight == Some(f) {
      assert FlightOk(f, s.flights[f], s.res, s.slots, s.configFlight);
    }
    if OpenConfigs(s) != {} {
      var f :| f in OpenConfigs(s);
      assert OpenConfigs(s) == {f};
    }
  }

  /**
   One client cannot starve the gateway pool: its incomplete POSTs and all incomplete config
   fetches together never use more than 127 of the 128 sockets.
   */
  lemma SocketBudget(l: Limits, states: seq<State>, events: seq<Event>, n: nat, c: Client)
    requires Run(l, states, events) && n < |states|
    ensures |OpenPosts(states[n], c)| + |OpenConfigs(states[n])| <= MAX_SOCKETS - 1
  {
    var s := states[n];
    OneConfigFetch(l, states, events, n);
    CountersAreExact(l, states, events, n, c);
    forall f | f in OpenPosts(s, c)
      ensures s.flights[f].kind.owner in HeldBy(s.slots, c) && s.slots[s.flights[f].kind.owner].stage == Forwarded(f)
    {
      PostHoldsSlot(l, states, events, n, f);
    }
    PostsWithinSlots(s, OpenPosts(s, c), HeldBy(s.slots, c));
  }

  ghost predicate Reported(s: State, id: Id) {
    exists i :: 0 <= i < |s.outcomes| && s.outcomes[i].caller == id
  }

  /**
   Every caller of a flight gets exactly one terminal outcome: none while it is still waiting, one
   from then on, and nobody waits on a completed flight.
   */
  lemma ExactlyOneOutcome(l: Limits, states: seq<State>, events: seq<Event>, n: nat, id: Id)
    requires Run(l, states, events) && n < |states|
    requires id in states[n].res && states[n].res[id].joined.Some?
    ensures var s, f := states[n], states[n].res[id].joined.value;
            && f < |s.flights|
            && (id in s.flights[f].callers <==> !Reported(s, id))
            && (s.flights[f].completed ==> Reported(s, id))
            && (forall i, j :: 0 <= i < |s.outcomes| && 0 <= j < |s.outcomes| && s.outcomes[i].caller == s.outcomes[j].caller ==> i == j)
            && (forall i :: 0 <= i < |s.outcomes| && s.outcomes[i].caller == id ==> s.outcomes[i].flight == f)
  {
    RunKeepsInv(l, states, events, n);
    assert ResOk(id, states[n].res[id], states[n].flights, states[n].outcomes);
    var s, f := states[n], states[n].res[id].joined.value;
    assert FlightOk(f, s.flights[f], s.res, s.slots, s.configFlight);
    assert Reported(s, id) <==> HasOutcome(s.outcomes, id);
  }

  /**
   A flight completes only through its gateway exchange or because its last caller left: a
   disconnect never cancels a request somebody else is waiting for.
   */
  lemma OnlyLastCallerCancels(l: Limits, states: seq<State>, events: seq<Event>, n: nat, f: nat)
    requires Run(l, states, events) && n < |events|
    requires f < |states[n].flights| && !states[n].flights[f].completed
    requires f < |states[n + 1].flights| && states[n + 1].flights[f].completed
    ensures (events[n].EFlightDone? && events[n].f == f)
            || (events[n].EResClose? && states[n].flights[f].callers == [events[n].id])
  {
    RunKeepsInv(l, states, events, n);
    var s, e := states[n], events[n];
    assert FlightOk(f, s.flights[f], s.res, s.slots, s.configFlight);
    match e
    case EResClose(id) => CloseCompletes(l, s, id, f);
    case EArriveConfig(id, destroyed, cached, haveGateway) => ArrivalCompletesNothing(l, s, id, destroyed, cached, haveGateway, f);
    case EFlightDone(g, _) =>
    case _ => OtherTurnsKeepFlights(l, s, e);
  }

  /** Giving a slot back touches no flight and no response. */
  lemma ReleaseFrame(s: State, id: Id)
    requires id in s.slots
    ensures var t := ReleaseSlot(s, id);
            t.flights == s.flights && t.res == s.res && t.draining == s.draining && t.slots.Keys == s.slots.Keys
  {
  }

  lemma CloseFlights(s: State, id: Id)
    requires id in s.res
    ensures var t := s.(res := s.res[id := s.res[id].(destroyed := true)]);
            ResClose(s, id).flights ==
              if s.res[id].listening && s.res[id].joined.Some? && s.res[id].joined.value < |s.flights|
              then Closed(t, s.res[id].joined.value, id).flights else s.flights
  {
    var t := s.(res := s.res[id := s.res[id].(destroyed := true)]);
    var u := if t.res[id].listening && t.res[id].joined.Some? && t.res[id].joined.value < |t.flights|
             then Closed(t, t.res[id].joined.value, id) else t;
    if id in u.slots { ReleaseFrame(u, id); }
  }

  lemma OtherTurnsKeepFlights(l: Limits, s: State, e: Event)
    requires Enabled(s, e) && !e.EResClose? && !e.EArriveConfig? && !e.EFlightDone?
    ensures s.flights <= Apply(l, s, e).flights
  {
    match e
    case EBodyEnd(id) =>
      if !s.slots[id].stage.aborted && !s.res[id].destroyed {
        LaunchLive(s.(slots := s.slots[id := s.slots[id].(stage := Forwarded(|s.flights|))]), Post(id), id);
      }
    case _ =>
  }

  lemma CloseCompletes(l: Limits, s: State, id: Id, f: nat)
    requires Inv(l, s) && id in s.res && f < |s.flights| && !s.flights[f].completed
    requires f < |ResClose(s, id).flights| && ResClose(s, id).flights[f].completed
    ensures s.flights[f].callers == [id]
  {
    assert FlightOk(f, s.flights[f], s.res, s.slots, s.configFlight);
    assert ResOk(id, s.res[id], s.flights, s.outcomes);
    var t := s.(res := s.res[id := s.res[id].(destroyed := true)]);
    CloseFlights(s, id);
    if s.res[id].listening {
      var g := s.res[id].joined.value;
      assert FlightOk(g, s.flights[g], s.res, s.slots, s.configFlight);
      ClosedShape(t, g, id);
      RemoveProperties(s.flights[g].callers, id);
      OnlyOneLeft(s.flights[f].callers, id);
    }
  }

  lemma OnlyOneLeft(callers: seq<Id>, id: Id)
    requires Distinct(callers) && callers != []
    ensures Remove(callers, id) == [] ==> callers == [id]
  {
    RemoveProperties(callers, id);
    if Remove(callers, id) == [] {
      assert forall i :: 0 <= i < |callers| ==> callers[i] in callers && callers[i] == id;
      assert |callers| == 1;
    }
  }

  /** Joining a flight that has callers does not complete it, and touches no other flight. */
  lemma JoinCompletesNothing(s: State, g: nat, id: Id)
    requires g < |s.flights| && id in s.res && !s.res[id].ended && !s.flights[g].completed
    requires s.flights[g].callers != [] && s.flights[g].callers[0] != id
    ensures var t := Join(s, g, id);
            |t.flights| == |s.flights| && !t.flights[g].completed && forall f :: 0 <= f < |s.flights| && f != g ==> t.flights[f] == s.flights[f]
  {
    var callers := s.flights[g].callers + [id];
    var u := s.(flights := s.flights[g := s.flights[g].(callers := callers)],
                res := s.res[id := s.res[id].(joined := Some(g), listening := true)]);
    if s.res[id].destroyed {
      ClosedShape(u, g, id);
      assert callers[0] == s.flights[g].callers[0];
    }
  }

  /** Opening a flight touches no other flight. */
  lemma LaunchKeepsFlights(s: State, kind: Kind, id: Id)
    requires id in s.res && !s.res[id].ended
    ensures s.flights <= Launch(s, kind, id).flights
  {
    var n := |s.flights|;
    if s.res[id].destroyed {
      LaunchGone(s, kind, id);
      ClosedShape(s.(flights := s.flights + [Flight(kind, [id], false)],
                     res := s.res[id := s.res[id].(joined := Some(n), listening := true)]), n, id);
    } else {
      LaunchLive(s, kind, id);
    }
  }

  lemma SharingCompletesNothing(s: State, id: Id, f: nat)
    requires id in s.res && !s.res[id].ended && f < |s.flights| && !s.flights[f].completed
    requires var g := s.configFlight;
             g.Some? && g.value < |s.flights| && !s.flights[g.value].completed ==>
               s.flights[g.value].callers != [] && s.flights[g.value].callers[0] != id
    ensures f < |ShareConfig(s, id).flights| && !ShareConfig(s, id).flights[f].completed
  {
    if s.configFlight.Some? && s.configFlight.value < |s.flights| && !s.flights[s.configFlight.value].completed {
      JoinCompletesNothing(s, s.configFlight.value, id);
    } else {
      LaunchKeepsFlights(s, ConfigFetch, id);
    }
  }

  lemma ArrivalCompletesNothing(l: Limits, s: State, id: Id, destroyed: bool, cached: bool, haveGateway: bool, f: nat)
    requires Inv(l, s) && id !in s.res && f < |s.flights| && !s.flights[f].completed
    ensures f < |ArriveConfig(s, id, destroyed, cached, haveGateway).flights|
    ensures !ArriveConfig(s, id, destroyed, cached, haveGateway).flights[f].completed
  {
    ArriveConfigShape(s, id, destroyed, cached, haveGateway);
    if s.configFlight.Some? && s.configFlight.value < |s.flights| {
      var g := s.configFlight.value;
      assert FlightOk(g, s.flights[g], s.res, s.slots, s.configFlight);
    }
    SharingCompletesNothing(s.(res := s.res[id := Res(destroyed, false, 0, None, false)]), id, f);
  }

  /** Nobody is let in from `s` to `t`, and draining does not end. */
  ghost predicate Closing(s: State, t: State) {
    t.draining == s.draining && t.slots.Keys == s.slots.Keys
  }

  lemma ClosingOn(s: State, t: State, u: State)
    requires Closing(s, t) && Closing(t, u)
    ensures Closing(s, u)
  {
  }

  /** Once draining has begun it never ends, and no request is admitted any more. */
  lemma {:induction false} NothingAdmittedWhileDraining(l: Limits, states: seq<State>, events: seq<Event>, m: nat, n: nat)
    requires Run(l, states, events) && m <= n < |states| && states[m].draining
    ensures states[n].draining && states[n].slots.Keys == states[m].slots.Keys
    decreases n - m
  {
    if m < n {
      NothingAdmittedWhileDraining(l, states, events, m, n - 1);
      DrainingTurn(l, states, events, n - 1);
      ClosingOn(states[m], states[n - 1], states[n]);
    }
  }

  lemma DrainingTurn(l: Limits, states: seq<State>, events: seq<Event>, n: nat)
    requires Run(l, states, events) && n < |events| && states[n].draining
    ensures Closing(states[n], states[n + 1])
  {
    DrainingStep(l, states[n], events[n]);
  }

  lemma DrainingStep(l: Limits, s: State, e: Event)
    requires Enabled(s, e) && s.draining
    ensures Closing(s, Apply(l, s, e))
  {
    match e
    case EArrive(id, client, rateLimited) => ArriveShape(l, s, id, client, rateLimited);
    case EArriveConfig(id, destroyed, cached, haveGateway) => ArriveConfigShape(s, id, destroyed, cached, haveGateway);
    case EAuthorize(id, result) => AuthorizeAdmitsNobody(s, id, result);
    case EAborted(id) => ReleaseFrame(s.(slots := s.slots[id := s.slots[id].(stage := Receiving(true), reqDestroyed := true)]), id);
    case EOversize(id) => OversizeAdmitsNobody(s, id);
    case EBodyEnd(id) => BodyEndAdmitsNobody(s, id);
    case EResFinish(id) => if id in s.slots { ReleaseFrame(s, id); }
    case EResClose(id) => CloseSlots(s, id);
    case _ =>
  }

  lemma AuthorizeAdmitsNobody(s: State, id: Id, result: AuthResult)
    requires id in s.slots && id in s.res
    ensures Closing(s, Authorize(s, id, result))
  {
    var gone := s.slots[id].reqDestroyed || s.res[id].destroyed;
    var t := if !result.Authorized? && !s.res[id].destroyed then EndResponse(s, id, if result.Denied? then 401 else 503) else s;
    ReleaseFrame(t.(slots := t.slots[id := t.slots[id].(authPending := false,
                    stage := if result.Authorized? && !gone then Receiving(false) else Over)]), id);
  }

  lemma OversizeAdmitsNobody(s: State, id: Id)
    requires id in s.slots && id in s.res && s.slots[id].stage.Receiving?
    ensures Closing(s, Oversize(s, id))
  {
    ReleaseFrame(EndResponse(s.(slots := s.slots[id := s.slots[id].(stage := Receiving(true), reqDestroyed := true)]), id, 413), id);
  }

  lemma BodyEndAdmitsNobody(s: State, id: Id)
    requires id in s.slots && id in s.res && s.slots[id].stage.Receiving?
    ensures Closing(s, BodyEnd(s, id))
  {
    if !s.slots[id].stage.aborted && !s.res[id].destroyed {
      LaunchLive(s.(slots := s.slots[id := s.slots[id].(stage := Forwarded(|s.flights|))]), Post(id), id);
    }
  }

  lemma CloseSlots(s: State, id: Id)
    requires id in s.res
    ensures Closing(s, ResClose(s, id))
  {
    var t := s.(res := s.res[id := s.res[id].(destroyed := true)]);
    var u := if t.res[id].listening && t.res[id].joined.Some? && t.res[id].joined.value < |t.flights|
             then Closed(t, t.res[id].joined.value, id) else t;
    assert u.slots == s.slots && u.draining == s.draining;
    if id in u.slots { ReleaseFrame(u, id); }
  }

  /** Unless the hard deadline struck, the process has exited with 0 exactly when it is draining, HTTP is
      closed and no slot is held. */
  lemma ExitsExactlyWhenDrained(l: Limits, states: seq<State>, events: seq<Event>, n: nat)
    requires Run(l, states, events) && n < |states| && states[n].exit != Some(1)
    ensures states[n].exit == Some(0) <==> states[n].draining && states[n].httpClosed && Held(states[n].slots) == {}
  {
    RunKeepsInv(l, states, events, n);
  }

  /**
   No slot leaks. When the response of an admitted request closes, its slot has been given back by the
   end of that turn, or authorization is pending and the release is on record; and a recorded
   release is carried out in the turn in which authorization settles.
   */
  lemma ClosingReleases(l: Limits, states: seq<State>, events: seq<Event>, n: nat, id: Id)
    requires Run(l, states, events) && n < |events| && id in states[n].slots
    requires events[n] == EResClose(id) || (events[n].EAuthorize? && events[n].id == id && states[n].slots[id].releaseRequested)
    ensures id in states[n + 1].slots
    ensures var slot := states[n + 1].slots[id]; slot.releases == 1 || (events[n].EResClose? && slot.authPending && slot.releaseRequested)
  {
    RunKeepsInv(l, states, events, n);
    var s := states[n];
    assert SlotOk(id, s.slots[id], s.res[id], s.flights);
    if events[n].EResClose? {
      CloseReleases(s, id);
    }
  }

  lemma CloseReleases(s: State, id: Id)
    requires id in s.res && id in s.slots && s.slots[id].releases <= 1
    ensures id in ResClose(s, id).slots
    ensures var slot := ResClose(s, id).slots[id];
            if s.slots[id].authPending then slot.authPending && slot.releaseRequested else slot.releases == 1
  {
    var t := s.(res := s.res[id := s.res[id].(destroyed := true)]);
    var u := if t.res[id].listening && t.res[id].joined.Some? && t.res[id].joined.value < |t.flights|
             then Closed(t, t.res[id].joined.value, id) else t;
    assert u.slots == s.slots;
    assert ResClose(s, id) == ReleaseSlot(u, id);
  }

  // ----- Nothing leaks over a run -----

  /** The slot is given back, or will be in the turn in which authorization settles. */
  ghost predicate LetGo(slot: Slot) {
    slot.releases >= 1 || (slot.authPending && slot.releaseRequested)
  }

  /** No slot is taken back, and no recorded release is forgotten. */
  ghost predicate SlotMoves(a: Slot, b: Slot) {
    && (a.releases >= 1 ==> b.releases >= 1)
    && (LetGo(a) ==> LetGo(b))
  }

  ghost predicate SlotsMove(a: map<Id, Slot>, b: map<Id, Slot>) {
    forall id {:trigger a[id]} :: id in a ==> id in b && SlotMoves(a[id], b[id])
  }

  lemma ReleaseMovesOn(s: State, id: Id)
    requires id in s.slots
    ensures SlotsMove(s.slots, ReleaseSlot(s, id).slots) && LetGo(ReleaseSlot(s, id).slots[id])
  {
  }

  lemma MovesOn(a: map<Id, Slot>, b: map<Id, Slot>, c: map<Id, Slot>)
    requires SlotsMove(a, b) && SlotsMove(b, c)
    ensures SlotsMove(a, c)
  {
  }

  /** Changing a slot other than by letting go of it. */
  lemma EditMovesOn(slots: map<Id, Slot>, id: Id, slot: Slot)
    requires id in slots && slot.releases == slots[id].releases && slot.authPending == slots[id].authPending
    requires slot.releaseRequested == slots[id].releaseRequested
    ensures SlotsMove(slots, slots[id := slot])
  {
  }

  lemma AuthorizeMovesOn(s: State, id: Id, result: AuthResult)
    requires id in s.slots && id in s.res && s.slots[id].authPending
    ensures SlotsMove(s.slots, Authorize(s, id, result).slots)
  {
    var gone := s.slots[id].reqDestroyed || s.res[id].destroyed;
    var t := if !result.Authorized? && !s.res[id].destroyed then EndResponse(s, id, if result.Denied? then 401 else 503) else s;
    var u := t.(slots := t.slots[id := t.slots[id].(authPending := false,
                stage := if result.Authorized? && !gone then Receiving(false) else Over)]);
    ReleaseMovesOn(u, id);
    forall k | k in s.slots ensures k in Authorize(s, id, result).slots && SlotMoves(s.slots[k], Authorize(s, id, result).slots[k]) {
      if k != id { assert u.slots[k] == s.slots[k]; }
    }
  }

  lemma OversizeMovesOn(s: State, id: Id)
    requires id in s.slots && id in s.res && s.slots[id].stage.Receiving?
    ensures SlotsMove(s.slots, Oversize(s, id).slots)
  {
    if !s.slots[id].stage.aborted {
      var slots := s.slots[id := s.slots[id].(stage := Receiving(true), reqDestroyed := true)];
      EditMovesOn(s.slots, id, slots[id]);
      ReleaseMovesOn(EndResponse(s.(slots := slots), id, 413), id);
      MovesOn(s.slots, slots, Oversize(s, id).slots);
    }
  }

  lemma AbortedMovesOn(s: State, id: Id)
    requires id in s.slots
    ensures SlotsMove(s.slots, Aborted(s, id).slots)
  {
    var slots := s.slots[id := s.slots[id].(stage := Receiving(true), reqDestroyed := true)];
    EditMovesOn(s.slots, id, slots[id]);
    ReleaseMovesOn(s.(slots := slots), id);
    MovesOn(s.slots, slots, Aborted(s, id).slots);
  }

  lemma BodyEndMovesOn(s: State, id: Id)
    requires id in s.slots && id in s.res && s.slots[id].stage.Receiving?
    ensures SlotsMove(s.slots, BodyEnd(s, id).slots)
  {
    if !s.slots[id].stage.aborted && !s.res[id].destroyed {
      LaunchLive(s.(slots := s.slots[id := s.slots[id].(stage := Forwarded(|s.flights|))]), Post(id), id);
    }
  }

  /** What a close does to the slots: only the slot of that response, if it has one, is let go. */
  lemma CloseMovesOn(s: State, id: Id)
    requires id in s.res
    ensures SlotsMove(s.slots, ResClose(s, id).slots)
    ensures id in s.slots ==> id in ResClose(s, id).slots && LetGo(ResClose(s, id).slots[id])
  {
    var t := s.(res := s.res[id := s.res[id].(destroyed := true)]);
    var u := if t.res[id].listening && t.res[id].joined.Some? && t.res[id].joined.value < |t.flights|
             then Closed(t, t.res[id].joined.value, id) else t;
    assert u.slots == s.slots;
    if id in u.slots { ReleaseMovesOn(u, id); }
  }

  lemma StepMovesOn(l: Limits, s: State, e: Event)
    requires Inv(l, s) && Enabled(s, e)
    ensures SlotsMove(s.slots, Apply(l, s, e).slots)
  {
    match e
    case EArrive(id, client, rateLimited) => ArriveShape(l, s, id, client, rateLimited);
    case EArriveConfig(id, destroyed, cached, haveGateway) => ConfigKeepsSlots(s, id, destroyed, cached, haveGateway);
    case EAuthorize(id, result) => AuthorizeMovesOn(s, id, result);
    case EAborted(id) => AbortedMovesOn(s, id);
    case EOversize(id) => OversizeMovesOn(s, id);
    case EBodyEnd(id) => BodyEndMovesOn(s, id);
    case EResFinish(id) => if id in s.slots { ReleaseMovesOn(s, id); }
    case EResClose(id) => CloseMovesOn(s, id);
    case EReqDestroyed(id) => EditMovesOn(s.slots, id, s.slots[id].(reqDestroyed := true));
    case _ =>
  }

  lemma ConfigKeepsSlots(s: State, id: Id, destroyed: bool, cached: bool, haveGateway: bool)
    ensures ArriveConfig(s, id, destroyed, cached, haveGateway).slots == s.slots
  {
    ArriveConfigShape(s, id, destroyed, cached, haveGateway);
  }

  lemma TurnMovesOn(l: Limits, states: seq<State>, events: seq<Event>, n: nat)
    requires Run(l, states, events) && n < |events|
    ensures SlotsMove(states[n].slots, states[n + 1].slots)
  {
    RunKeepsInv(l, states, events, n);
    StepMovesOn(l, states[n], events[n]);
  }

  lemma {:induction false} RunMovesOn(l: Limits, states: seq<State>, events: seq<Event>, m: nat, n: nat)
    requires Run(l, states, events) && m <= n < |states|
    ensures SlotsMove(states[m].slots, states[n].slots)
    decreases n - m
  {
    if m < n {
      RunMovesOn(l, states, events, m, n - 1);
      TurnMovesOn(l, states, events, n - 1);
      MovesOn(states[m].slots, states[n - 1].slots, states[n].slots);
    }
  }

  /** Once the response of an admitted request has closed, its slot is let go for good. */
  lemma ClosedIsLetGo(l: Limits, states: seq<State>, events: seq<Event>, k: nat, n: nat, id: Id)
    requires Run(l, states, events) && k < n < |states| && k < |events| && events[k] == EResClose(id) && id in states[k].slots
    ensures id in states[n].slots && LetGo(states[n].slots[id])
  {
    CloseMovesOn(states[k], id);
    RunMovesOn(l, states, events, k + 1, n);
  }

  /**
   No slot leaks over a run. If the response of every admitted request has closed while the request was
   admitted, and no authorization is pending, then no slot is held and both counters are empty; and if
   the process is also draining with HTTP closed, it has exited with 0, short of the hard deadline.
   */
  lemma NothingLeaks(l: Limits, states: seq<State>, events: seq<Event>, n: nat)
    requires Run(l, states, events) && n < |states|
    requires forall id :: id in states[n].slots ==> !states[n].slots[id].authPending
    requires forall id :: id in states[n].slots ==> ClosedBefore(states, events, n, id)
    ensures Held(states[n].slots) == {} && states[n].inflight == 0 && states[n].clientInflight == map[]
    ensures states[n].draining && states[n].httpClosed && states[n].exit != Some(1) ==> states[n].exit == Some(0)
  {
    var s := states[n];
    RunKeepsInv(l, states, events, n);
    forall id | id in s.slots ensures s.slots[id].releases >= 1 {
      var k :| 0 <= k < n && k < |events| && k < |states| && id in states[k].slots && events[k] == EResClose(id);
      ClosedIsLetGo(l, states, events, k, n, id);
    }
    assert forall c :: c in s.clientInflight ==> HeldBy(s.slots, c) == {};
    assert s.clientInflight.Keys == {};
    if s.exit != Some(1) { ExitsExactlyWhenDrained(l, states, events, n); }
  }

  /** The response of request `id` closed in one of the first `n` turns, after the request was admitted. */
  ghost predicate ClosedBefore(states: seq<State>, events: seq<Event>, n: nat, id: Id) {
    exists k :: 0 <= k < n && k < |events| && k < |states| && id in states[k].slots && events[k] == EResClose(id)
  }
}
