/** The invariant of the relay and the theorems it gives over every run. */
module RelayInvariant {
  import opened Prelude
  import opened Relay

  ghost function Held(slots: map<Id, Slot>): set<Id> {
    set id | id in slots && slots[id].releases == 0
  }

  ghost function HeldBy(slots: map<Id, Slot>, c: Client): set<Id> {
    set id | id in slots && slots[id].releases == 0 && slots[id].client == c
  }

  // ----- Counters are exact -----

  ghost predicate CountsOk(l: Limits, inflight: int, clientInflight: map<Client, int>, slots: map<Id, Slot>) {
    && inflight == |Held(slots)|
    && inflight <= Max(0, l.maxInflight)
    && (forall c :: c in clientInflight ==> 0 < clientInflight[c] == |HeldBy(slots, c)| <= ClientCap(l))
    && (forall c :: c !in clientInflight ==> HeldBy(slots, c) == {})
  }

  lemma AdmitKeepsCounts(l: Limits, inflight: int, clientInflight: map<Client, int>, slots: map<Id, Slot>,
                         id: Id, slot: Slot, count: int)
    requires CountsOk(l, inflight, clientInflight, slots)
    requires id !in slots && slot.releases == 0
    requires count == if slot.client in clientInflight then clientInflight[slot.client] else 0
    requires inflight < l.maxInflight && count < ClientCap(l)
    ensures CountsOk(l, inflight + 1, clientInflight[slot.client := count + 1], slots[id := slot])
  {
    var after, counts := slots[id := slot], clientInflight[slot.client := count + 1];
    assert Held(after) == Held(slots) + {id};
    forall c ensures c in counts ==> 0 < counts[c] == |HeldBy(after, c)| <= ClientCap(l)
             ensures c !in counts ==> HeldBy(after, c) == {}
    {
      HeldAfterAdmit(slots, id, slot, c);
    }
  }

  lemma HeldAfterAdmit(slots: map<Id, Slot>, id: Id, slot: Slot, c: Client)
    requires id !in slots && slot.releases == 0
    ensures |HeldBy(slots[id := slot], c)| == |HeldBy(slots, c)| + if c == slot.client then 1 else 0
  {
    if c == slot.client {
      assert HeldBy(slots[id := slot], c) == HeldBy(slots, c) + {id};
    } else {
      assert HeldBy(slots[id := slot], c) == HeldBy(slots, c);
    }
  }

  lemma ReleaseKeepsCounts(l: Limits, inflight: int, clientInflight: map<Client, int>, slots: map<Id, Slot>, id: Id)
    requires CountsOk(l, inflight, clientInflight, slots)
    requires id in slots && slots[id].releases == 0
    ensures CountsOk(l, inflight - 1, Decrement(clientInflight, slots[id].client),
                     slots[id := slots[id].(releases := slots[id].releases + 1)])
  {
    var after := slots[id := slots[id].(releases := slots[id].releases + 1)];
    var client := slots[id].client;
    assert id in HeldBy(slots, client);
    assert Held(after) == Held(slots) - {id};
    assert HeldBy(after, client) == HeldBy(slots, client) - {id};
    assert |HeldBy(after, client)| == |HeldBy(slots, client)| - 1;
    forall c | c != client ensures HeldBy(after, c) == HeldBy(slots, c) {}
    assert client in clientInflight;
  }

  /** Changing a slot without giving it back or taking it over leaves the counters exact. */
  lemma SameHolding(l: Limits, inflight: int, clientInflight: map<Client, int>, slots: map<Id, Slot>, id: Id, slot: Slot)
    requires CountsOk(l, inflight, clientInflight, slots)
    requires id in slots && slot.client == slots[id].client && slot.releases == slots[id].releases
    ensures CountsOk(l, inflight, clientInflight, slots[id := slot])
  {
    assert Held(slots[id := slot]) == Held(slots);
    assert forall c :: HeldBy(slots[id := slot], c) == HeldBy(slots, c);
  }

  // ----- Requests, responses and flights refer to each other correctly -----

  ghost predicate HasOutcome(outcomes: seq<Terminal>, id: Id) {
    exists i :: 0 <= i < |outcomes| && outcomes[i].caller == id
  }

  ghost predicate SlotOk(id: Id, slot: Slot, r: Res, flights: seq<Flight>) {
    && slot.releases <= 1
    && (slot.authPending <==> slot.stage.Authorizing?)
    && (slot.releaseRequested ==> r.destroyed)
    && match slot.stage
       case Authorizing => slot.releases == 0 && !r.ended && r.joined.None?
       case Receiving(aborted) => r.joined.None? && (aborted || (!r.ended && (slot.releases == 1 ==> r.destroyed)))
       case Forwarded(f) =>
         && f < |flights| && flights[f].kind == Post(id) && r.joined == Some(f)
         && (!flights[f].completed ==> slot.releases == 0 && id in flights[f].callers)
       case Over => r.joined.None?
  }

  ghost predicate FlightOk(f: nat, fl: Flight, res: map<Id, Res>, slots: map<Id, Slot>, configFlight: Option<nat>) {
    && (fl.completed <==> fl.callers == [])
    && Distinct(fl.callers)
    && (forall id :: id in fl.callers ==> id in res && res[id].joined == Some(f) && res[id].listening && !res[id].ended)
    && match fl.kind
       case Post(owner) =>
         && owner in slots && slots[owner].stage == Forwarded(f)
         && (forall id :: id in fl.callers ==> id == owner)
       case ConfigFetch => fl.completed || configFlight == Some(f)
  }

  ghost predicate ResOk(id: Id, r: Res, flights: seq<Flight>, outcomes: seq<Terminal>) {
    && (r.joined.Some? ==> r.joined.value < |flights|)
    && (r.listening ==> r.joined.Some? && id in flights[r.joined.value].callers)
    && (r.joined.Some? && !r.listening <==> HasOutcome(outcomes, id))
  }

  ghost predicate OutcomesOk(res: map<Id, Res>, outcomes: seq<Terminal>) {
    && (forall i, j :: 0 <= i < j < |outcomes| ==> outcomes[i].caller != outcomes[j].caller)
    && (forall i :: 0 <= i < |outcomes| ==> outcomes[i].caller in res && res[outcomes[i].caller].joined == Some(outcomes[i].flight))
  }

  ghost predicate Links(res: map<Id, Res>, slots: map<Id, Slot>, flights: seq<Flight>, configFlight: Option<nat>, outcomes: seq<Terminal>) {
    && slots.Keys <= res.Keys
    && (forall id {:trigger SlotOk(id, slots[id], res[id], flights)} :: id in slots ==> SlotOk(id, slots[id], res[id], flights))
    && (forall f {:trigger FlightOk(f, flights[f], res, slots, configFlight)} :: 0 <= f < |flights| ==> FlightOk(f, flights[f], res, slots, configFlight))
    && (forall id {:trigger ResOk(id, res[id], flights, outcomes)} :: id in res ==> ResOk(id, res[id], flights, outcomes))
    && OutcomesOk(res, outcomes)
    && (configFlight.Some? ==> configFlight.value < |flights| && flights[configFlight.value].kind.ConfigFetch?)
  }

  lemma SlotUpdate(res: map<Id, Res>, slots: map<Id, Slot>, flights: seq<Flight>, configFlight: Option<nat>, outcomes: seq<Terminal>,
                   id: Id, slot: Slot)
    requires Links(res, slots, flights, configFlight, outcomes)
    requires id in res && SlotOk(id, slot, res[id], flights)
    requires id in slots ==> slot.stage == slots[id].stage || !slots[id].stage.Forwarded?
    ensures Links(res, slots[id := slot], flights, configFlight, outcomes)
  {
    var after := slots[id := slot];
    forall f | 0 <= f < |flights| ensures FlightOk(f, flights[f], res, after, configFlight) {
      assert FlightOk(f, flights[f], res, slots, configFlight);
    }
  }

  lemma ResUpdate(res: map<Id, Res>, slots: map<Id, Slot>, flights: seq<Flight>, configFlight: Option<nat>, outcomes: seq<Terminal>,
                  id: Id, r: Res)
    requires Links(res, slots, flights, configFlight, outcomes)
    requires id in res && r.joined == res[id].joined && r.listening == res[id].listening
    requires !r.listening || !r.ended
    requires id in slots ==> SlotOk(id, slots[id], r, flights)
    ensures Links(res[id := r], slots, flights, configFlight, outcomes)
  {
    var after := res[id := r];
    forall f | 0 <= f < |flights| ensures FlightOk(f, flights[f], after, slots, configFlight) {
      assert FlightOk(f, flights[f], res, slots, configFlight);
    }
    forall k | k in after ensures ResOk(k, after[k], flights, outcomes) {
      assert ResOk(k, res[k], flights, outcomes);
    }
  }

  lemma NewRes(res: map<Id, Res>, slots: map<Id, Slot>, flights: seq<Flight>, configFlight: Option<nat>, outcomes: seq<Terminal>,
               id: Id, r: Res)
    requires Links(res, slots, flights, configFlight, outcomes)
    requires id !in res && r.joined.None? && !r.listening
    ensures Links(res[id := r], slots, flights, configFlight, outcomes)
  {
    var after := res[id := r];
    forall f | 0 <= f < |flights| ensures FlightOk(f, flights[f], after, slots, configFlight) {
      assert FlightOk(f, flights[f], res, slots, configFlight);
    }
    forall k | k in after ensures ResOk(k, after[k], flights, outcomes) {
      if k in res { assert ResOk(k, res[k], flights, outcomes); }
    }
  }

  // ----- Callers leave a flight -----

  /**
   The callers named in `ts` leave flight `f` with one outcome each and `rest` stays behind; the
   flight is completed exactly when nobody stays.
   */
  ghost predicate Leaves(res: map<Id, Res>, res': map<Id, Res>, fl: Flight, f: nat, rest: seq<Id>, ts: seq<Terminal>) {
    && !fl.completed
    && (forall i, j :: 0 <= i < j < |ts| ==> ts[i].caller != ts[j].caller)
    && (forall i :: 0 <= i < |ts| ==> ts[i].flight == f && ts[i].caller in fl.callers && ts[i].caller !in rest)
    && Distinct(rest)
    && (forall k :: k in rest ==> k in fl.callers)
    && (forall k :: k in fl.callers && k !in rest ==> HasOutcome(ts, k))
    && res'.Keys == res.Keys
    && (forall k :: k in res && !HasOutcome(ts, k) ==> res'[k] == res[k])
    && (forall k :: k in res && HasOutcome(ts, k) ==> res'[k].joined == res[k].joined && res'[k].destroyed == res[k].destroyed && !res'[k].listening)
  }

  lemma LeaveKeepsSlots(res: map<Id, Res>, res': map<Id, Res>, slots: map<Id, Slot>, flights: seq<Flight>, configFlight: Option<nat>,
                        outcomes: seq<Terminal>, f: nat, rest: seq<Id>, ts: seq<Terminal>, id: Id)
    requires Links(res, slots, flights, configFlight, outcomes)
    requires f < |flights| && Leaves(res, res', flights[f], f, rest, ts)
    requires id in slots
    ensures SlotOk(id, slots[id], res'[id], flights[f := Flight(flights[f].kind, rest, rest == [])])
  {
    assert SlotOk(id, slots[id], res[id], flights) && FlightOk(f, flights[f], res, slots, configFlight);
    assert HasOutcome(ts, id) ==> id in flights[f].callers;
    assert rest != [] ==> rest[0] in flights[f].callers;
  }

  lemma LeaveKeepsFlights(res: map<Id, Res>, res': map<Id, Res>, slots: map<Id, Slot>, flights: seq<Flight>, configFlight: Option<nat>,
                          outcomes: seq<Terminal>, f: nat, rest: seq<Id>, ts: seq<Terminal>, config': Option<nat>, g: nat)
    requires Links(res, slots, flights, configFlight, outcomes)
    requires f < |flights| && Leaves(res, res', flights[f], f, rest, ts)
    requires config' == if flights[f].kind.ConfigFetch? && rest == [] then None else configFlight
    requires g < |flights|
    ensures FlightOk(g, flights[f := Flight(flights[f].kind, rest, rest == [])][g], res', slots, config')
  {
    assert FlightOk(f, flights[f], res, slots, configFlight) && FlightOk(g, flights[g], res, slots, configFlight);
    assert forall k :: k in (if g == f then rest else flights[g].callers) ==> !HasOutcome(ts, k);
  }

  lemma LeaveKeepsRes(res: map<Id, Res>, res': map<Id, Res>, slots: map<Id, Slot>, flights: seq<Flight>, configFlight: Option<nat>,
                      outcomes: seq<Terminal>, f: nat, rest: seq<Id>, ts: seq<Terminal>, k: Id)
    requires Links(res, slots, flights, configFlight, outcomes)
    requires f < |flights| && Leaves(res, res', flights[f], f, rest, ts)
    requires k in res
    ensures ResOk(k, res'[k], flights[f := Flight(flights[f].kind, rest, rest == [])], outcomes + ts)
  {
    assert ResOk(k, res[k], flights, outcomes) && FlightOk(f, flights[f], res, slots, configFlight);
    var all := outcomes + ts;
    assert HasOutcome(all, k) <==> HasOutcome(outcomes, k) || HasOutcome(ts, k) by {
      if HasOutcome(outcomes, k) {
        var i :| 0 <= i < |outcomes| && outcomes[i].caller == k;
        assert all[i].caller == k;
      }
      if HasOutcome(ts, k) {
        var i :| 0 <= i < |ts| && ts[i].caller == k;
        assert all[|outcomes| + i].caller == k;
      }
    }
  }

  lemma LeaveKeepsOutcomes(res: map<Id, Res>, res': map<Id, Res>, slots: map<Id, Slot>, flights: seq<Flight>, configFlight: Option<nat>,
                           outcomes: seq<Terminal>, f: nat, rest: seq<Id>, ts: seq<Terminal>)
    requires Links(res, slots, flights, configFlight, outcomes)
    requires f < |flights| && Leaves(res, res', flights[f], f, rest, ts)
    ensures OutcomesOk(res', outcomes + ts)
  {
    assert FlightOk(f, flights[f], res, slots, configFlight);
    var all := outcomes + ts;
    forall i | 0 <= i < |ts| ensures !HasOutcome(outcomes, ts[i].caller) {
      assert ResOk(ts[i].caller, res[ts[i].caller], flights, outcomes);
    }
    forall i, j | 0 <= i < j < |all| ensures all[i].caller != all[j].caller {
      if i < |outcomes| <= j { assert !HasOutcome(outcomes, ts[j - |outcomes|].caller); }
    }
    forall i | 0 <= i < |all| ensures all[i].caller in res' && res'[all[i].caller].joined == Some(all[i].flight) {
      if i >= |outcomes| { assert ts[i - |outcomes|].caller in flights[f].callers; }
      assert all[i].caller in res && res[all[i].caller].joined == Some(all[i].flight);
      assert HasOutcome(ts, all[i].caller) || !HasOutcome(ts, all[i].caller);
    }
  }

  lemma Leave(res: map<Id, Res>, res': map<Id, Res>, slots: map<Id, Slot>, flights: seq<Flight>, configFlight: Option<nat>,
              outcomes: seq<Terminal>, f: nat, rest: seq<Id>, ts: seq<Terminal>, config': Option<nat>)
    requires Links(res, slots, flights, configFlight, outcomes)
    requires f < |flights| && Leaves(res, res', flights[f], f, rest, ts)
    requires config' == if flights[f].kind.ConfigFetch? && rest == [] then None else configFlight
    ensures Links(res', slots, flights[f := Flight(flights[f].kind, rest, rest == [])], config', outcomes + ts)
  {
    var flights' := flights[f := Flight(flights[f].kind, rest, rest == [])];
    forall id | id in slots ensures SlotOk(id, slots[id], res'[id], flights') {
      LeaveKeepsSlots(res, res', slots, flights, configFlight, outcomes, f, rest, ts, id);
    }
    forall g | 0 <= g < |flights'| ensures FlightOk(g, flights'[g], res', slots, config') {
      LeaveKeepsFlights(res, res', slots, flights, configFlight, outcomes, f, rest, ts, config', g);
    }
    forall k | k in res' ensures ResOk(k, res'[k], flights', outcomes + ts) {
      LeaveKeepsRes(res, res', slots, flights, configFlight, outcomes, f, rest, ts, k);
    }
    LeaveKeepsOutcomes(res, res', slots, flights, configFlight, outcomes, f, rest, ts);
  }

  // ----- Callers join a flight -----

  /** A new caller joins the shared config fetch. */
  lemma JoinConfig(res: map<Id, Res>, slots: map<Id, Slot>, flights: seq<Flight>, configFlight: Option<nat>, outcomes: seq<Terminal>,
                   id: Id, f: nat)
    requires Links(res, slots, flights, configFlight, outcomes)
    requires id in res && id !in slots && res[id].joined.None? && !res[id].ended
    requires f < |flights| && flights[f].kind.ConfigFetch? && !flights[f].completed
    ensures Links(res[id := res[id].(joined := Some(f), listening := true)], slots,
                  flights[f := flights[f].(callers := flights[f].callers + [id])], configFlight, outcomes)
  {
    var res', flights' := res[id := res[id].(joined := Some(f), listening := true)],
                          flights[f := flights[f].(callers := flights[f].callers + [id])];
    assert ResOk(id, res[id], flights, outcomes) && FlightOk(f, flights[f], res, slots, configFlight);
    forall g | 0 <= g < |flights'| ensures FlightOk(g, flights'[g], res', slots, configFlight) {
      assert FlightOk(g, flights[g], res, slots, configFlight);
    }
    forall k | k in slots ensures SlotOk(k, slots[k], res'[k], flights') {
      assert SlotOk(k, slots[k], res[k], flights);
    }
    forall k | k in res' ensures ResOk(k, res'[k], flights', outcomes) {
      assert ResOk(k, res[k], flights, outcomes);
      assert k == id ==> flights'[f].callers[|flights[f].callers|] == id;
      assert k != id && res[k].listening && res[k].joined == Some(f) ==> k in flights'[f].callers;
    }
  }

  /** A first caller opens a new config fetch when none is incomplete. */
  lemma OpenConfig(res: map<Id, Res>, slots: map<Id, Slot>, flights: seq<Flight>, configFlight: Option<nat>, outcomes: seq<Terminal>, id: Id)
    requires Links(res, slots, flights, configFlight, outcomes)
    requires id in res && id !in slots && res[id].joined.None? && !res[id].ended
    requires configFlight.None? || flights[configFlight.value].completed
    ensures Links(res[id := res[id].(joined := Some(|flights|), listening := true)], slots,
                  flights + [Flight(ConfigFetch, [id], false)], Some(|flights|), outcomes)
  {
    var n := |flights|;
    var res', flights' := res[id := res[id].(joined := Some(n), listening := true)], flights + [Flight(ConfigFetch, [id], false)];
    assert ResOk(id, res[id], flights, outcomes);
    forall g | 0 <= g < |flights'| ensures FlightOk(g, flights'[g], res', slots, Some(n)) {
      if g < n { assert FlightOk(g, flights[g], res, slots, configFlight); }
    }
    forall k | k in slots ensures SlotOk(k, slots[k], res'[k], flights') {
      assert SlotOk(k, slots[k], res[k], flights);
    }
    forall k | k in res' ensures ResOk(k, res'[k], flights', outcomes) {
      assert ResOk(k, res[k], flights, outcomes);
    }
  }

  /** The body of a request that still holds its slot is forwarded. */
  lemma OpenPost(res: map<Id, Res>, slots: map<Id, Slot>, flights: seq<Flight>, configFlight: Option<nat>, outcomes: seq<Terminal>, id: Id)
    requires Links(res, slots, flights, configFlight, outcomes)
    requires id in slots && slots[id].stage == Receiving(false) && !res[id].destroyed
    ensures slots[id].releases == 0
    ensures Links(res[id := res[id].(joined := Some(|flights|), listening := true)],
                  slots[id := slots[id].(stage := Forwarded(|flights|))],
                  flights + [Flight(Post(id), [id], false)], configFlight, outcomes)
  {
    var n := |flights|;
    var res', flights' := res[id := res[id].(joined := Some(n), listening := true)], flights + [Flight(Post(id), [id], false)];
    var slots' := slots[id := slots[id].(stage := Forwarded(n))];
    assert ResOk(id, res[id], flights, outcomes) && SlotOk(id, slots[id], res[id], flights);
    forall g | 0 <= g < |flights'| ensures FlightOk(g, flights'[g], res', slots', configFlight) {
      if g < n { assert FlightOk(g, flights[g], res, slots, configFlight); }
    }
    forall k | k in slots' ensures SlotOk(k, slots'[k], res'[k], flights') {
      assert SlotOk(k, slots[k], res[k], flights);
    }
    forall k | k in res' ensures ResOk(k, res'[k], flights', outcomes) {
      assert ResOk(k, res[k], flights, outcomes);
    }
  }

  // ----- The invariant, turn by turn -----

  /** Exit 0 happens exactly when draining, HTTP is closed and no slot is held. */
  ghost predicate ExitOk(s: State) {
    && (s.httpClosed ==> s.draining)
    && (s.exit == None || s.exit == Some(0) || s.exit == Some(1))
    && (s.exit != Some(1) ==> (s.exit == Some(0) <==> s.draining && s.httpClosed && s.inflight == 0))
  }

  ghost predicate Inv(l: Limits, s: State) {
    && CountsOk(l, s.inflight, s.clientInflight, s.slots)
    && Links(s.res, s.slots, s.flights, s.configFlight, s.outcomes)
    && ExitOk(s)
  }

  /** When giving a slot back cannot leave a flight of its request behind. */
  ghost predicate MayRelease(s: State, id: Id) {
    && id in s.slots && id in s.res
    && match s.slots[id].stage
       case Authorizing => s.res[id].destroyed
       case Receiving(aborted) => aborted || s.res[id].destroyed
       case Forwarded(f) => f < |s.flights| && s.flights[f].completed
       case Over => true
  }

  lemma ReleaseKeepsInv(l: Limits, s: State, id: Id)
    requires Inv(l, s) && s.exit.None? && MayRelease(s, id)
    ensures Inv(l, ReleaseSlot(s, id))
  {
    var slot := s.slots[id];
    assert SlotOk(id, slot, s.res[id], s.flights);
    if slot.authPending {
      SlotUpdate(s.res, s.slots, s.flights, s.configFlight, s.outcomes, id, slot.(releaseRequested := true));
      SameHolding(l, s.inflight, s.clientInflight, s.slots, id, slot.(releaseRequested := true));
    } else if slot.releases == 0 {
      SlotUpdate(s.res, s.slots, s.flights, s.configFlight, s.outcomes, id, slot.(releases := slot.releases + 1));
      ReleaseKeepsCounts(l, s.inflight, s.clientInflight, s.slots, id);
    }
  }

  lemma FinishKeepsInv(l: Limits, s: State, f: nat, status: int)
    requires Inv(l, s) && f < |s.flights|
    ensures Inv(l, FinishFlight(s, f, status))
  {
    var fl := s.flights[f];
    if !fl.completed {
      var ts := Verdicts(s.res, fl.callers, f, status);
      assert FlightOk(f, fl, s.res, s.slots, s.configFlight);
      forall k ensures HasOutcome(ts, k) <==> k in fl.callers {
        if k in fl.callers {
          var i :| 0 <= i < |fl.callers| && fl.callers[i] == k;
          assert ts[i].caller == k;
        }
      }
      Leave(s.res, Settle(s.res, fl.callers, status), s.slots, s.flights, s.configFlight, s.outcomes, f, [], ts,
            if fl.kind.ConfigFetch? then None else s.configFlight);
    }
  }

  ghost predicate Distinct(ids: seq<Id>) {
    forall i, j :: 0 <= i < j < |ids| ==> ids[i] != ids[j]
  }

  lemma {:induction false} RemoveProperties(callers: seq<Id>, id: Id)
    requires Distinct(callers)
    ensures forall k :: k in Remove(callers, id) <==> k in callers && k != id
    ensures Distinct(Remove(callers, id))
  {
    if callers != [] {
      RemoveProperties(callers[1..], id);
      assert callers == [callers[0]] + callers[1..];
      assert callers[0] !in callers[1..];
      assert callers[0] !in Remove(callers[1..], id);
    }
  }

  /** The 'close' listener, on a flight that still counts the caller. */
  lemma ClosedShape(s: State, f: nat, id: Id)
    requires f < |s.flights| && id in s.res && !s.res[id].ended && !s.flights[f].completed
    ensures var rest := Remove(s.flights[f].callers, id);
            Closed(s, f, id) == s.(
              flights := s.flights[f := Flight(s.flights[f].kind, rest, rest == [])],
              res := s.res[id := s.res[id].(listening := false)],
              outcomes := s.outcomes + [Terminal(id, f, Disconnected)],
              configFlight := if s.flights[f].kind.ConfigFetch? && rest == [] then None else s.configFlight)
  {
  }

  lemma ClosedKeepsInv(l: Limits, s: State, f: nat, id: Id)
    requires Inv(l, s) && f < |s.flights| && id in s.flights[f].callers
    ensures id in s.res && Inv(l, Closed(s, f, id))
    ensures var t := Closed(s, f, id); t.slots == s.slots && t.exit == s.exit && id in t.res && t.res[id].destroyed == s.res[id].destroyed
    ensures id !in Closed(s, f, id).flights[f].callers
  {
    assert FlightOk(f, s.flights[f], s.res, s.slots, s.configFlight);
    var callers := s.flights[f].callers;
    var ts := [Terminal(id, f, Disconnected)];
    RemoveProperties(callers, id);
    ClosedShape(s, f, id);
    assert forall k :: HasOutcome(ts, k) <==> k == id by { assert ts[0].caller == id; }
    var rest := Remove(callers, id);
    Leave(s.res, s.res[id := s.res[id].(listening := false)], s.slots, s.flights, s.configFlight, s.outcomes, f, rest, ts,
          if s.flights[f].kind.ConfigFetch? && rest == [] then None else s.configFlight);
  }

  lemma FlagKeepsInv(l: Limits, s: State, id: Id, r: Res)
    requires Inv(l, s) && id in s.res && r.joined == s.res[id].joined && r.listening == s.res[id].listening
    requires !r.listening || !r.ended
    requires id in s.slots ==> SlotOk(id, s.slots[id], r, s.flights)
    ensures Inv(l, s.(res := s.res[id := r]))
  {
    ResUpdate(s.res, s.slots, s.flights, s.configFlight, s.outcomes, id, r);
  }

  /** Being marked destroyed is always possible. */
  lemma DestroyKeepsInv(l: Limits, s: State, id: Id)
    requires Inv(l, s) && id in s.res
    ensures Inv(l, s.(res := s.res[id := s.res[id].(destroyed := true)]))
  {
    var r := s.res[id];
    assert ResOk(id, r, s.flights, s.outcomes);
    if r.listening { assert FlightOk(r.joined.value, s.flights[r.joined.value], s.res, s.slots, s.configFlight); }
    if id in s.slots { assert SlotOk(id, s.slots[id], r, s.flights); }
    FlagKeepsInv(l, s, id, r.(destroyed := true));
  }

  lemma SlotChangeKeepsInv(l: Limits, s: State, id: Id, slot: Slot)
    requires Inv(l, s) && id in s.slots && id in s.res && SlotOk(id, slot, s.res[id], s.flights)
    requires slot.client == s.slots[id].client && slot.releases == s.slots[id].releases
    requires slot.stage == s.slots[id].stage || !s.slots[id].stage.Forwarded?
    ensures Inv(l, s.(slots := s.slots[id := slot]))
  {
    SlotUpdate(s.res, s.slots, s.flights, s.configFlight, s.outcomes, id, slot);
    SameHolding(l, s.inflight, s.clientInflight, s.slots, id, slot);
  }

  lemma NewResKeepsInv(l: Limits, s: State, id: Id, destroyed: bool, ended: bool, status: int)
    requires Inv(l, s) && id !in s.res
    ensures Inv(l, s.(res := s.res[id := Res(destroyed, ended, status, None, false)]))
    ensures id !in s.slots
  {
    NewRes(s.res, s.slots, s.flights, s.configFlight, s.outcomes, id, Res(destroyed, ended, status, None, false));
  }

  lemma AdmitKeepsInv(l: Limits, s: State, id: Id, slot: Slot, count: int)
    requires Inv(l, s) && s.exit.None? && !s.draining
    requires id in s.res && id !in s.slots && s.res[id] == Res(false, false, 0, None, false)
    requires slot == Slot(slot.client, true, false, 0, Authorizing, false)
    requires count == if slot.client in s.clientInflight then s.clientInflight[slot.client] else 0
    requires s.inflight < l.maxInflight && count < ClientCap(l)
    ensures Inv(l, s.(inflight := s.inflight + 1, clientInflight := s.clientInflight[slot.client := count + 1],
                      slots := s.slots[id := slot]))
  {
    SlotUpdate(s.res, s.slots, s.flights, s.configFlight, s.outcomes, id, slot);
    AdmitKeepsCounts(l, s.inflight, s.clientInflight, s.slots, id, slot, count);
  }

  /** The two outcomes of an arrival. */
  lemma ArriveShape(l: Limits, s: State, id: Id, client: Client, rateLimited: bool)
    ensures var t := s.(res := s.res[id := Res(false, false, 0, None, false)]);
            var count := if client in s.clientInflight then s.clientInflight[client] else 0;
            Arrive(l, s, id, client, rateLimited) ==
              if s.draining || rateLimited || s.inflight >= l.maxInflight || count >= ClientCap(l) then
                s.(res := s.res[id := Res(false, true, if s.draining then 503 else 429, None, false)])
              else
                t.(inflight := t.inflight + 1, clientInflight := t.clientInflight[client := count + 1],
                   slots := t.slots[id := Slot(client, true, false, 0, Authorizing, false)])
  {
  }

  lemma ArriveKeepsInv(l: Limits, s: State, id: Id, client: Client, rateLimited: bool)
    requires Inv(l, s) && s.exit.None? && id !in s.res
    ensures Inv(l, Arrive(l, s, id, client, rateLimited))
  {
    ArriveShape(l, s, id, client, rateLimited);
    var count := if client in s.clientInflight then s.clientInflight[client] else 0;
    if s.draining || rateLimited || s.inflight >= l.maxInflight || count >= ClientCap(l) {
      NewResKeepsInv(l, s, id, false, true, if s.draining then 503 else 429);
    } else {
      NewResKeepsInv(l, s, id, false, false, 0);
      AdmitKeepsInv(l, s.(res := s.res[id := Res(false, false, 0, None, false)]), id,
                    Slot(client, true, false, 0, Authorizing, false), count);
    }
  }

  /** Opening a flight for a live caller. */
  lemma LaunchLive(s: State, kind: Kind, id: Id)
    requires id in s.res && !s.res[id].destroyed
    ensures Launch(s, kind, id) == s.(flights := s.flights + [Flight(kind, [id], false)],
                                      res := s.res[id := s.res[id].(joined := Some(|s.flights|), listening := true)])
  {
    var n := |s.flights|;
    var started := s.flights + [Flight(kind, [], false)];
    assert started[n] == Flight(kind, [], false) && [] + [id] == [id];
    assert started[n := started[n].(callers := started[n].callers + [id])] == s.flights + [Flight(kind, [id], false)];
  }

  /** Opening a flight for a caller already gone is opening it and closing it again. */
  lemma LaunchGone(s: State, kind: Kind, id: Id)
    requires id in s.res && s.res[id].destroyed
    ensures Launch(s, kind, id) == Closed(s.(flights := s.flights + [Flight(kind, [id], false)],
                                             res := s.res[id := s.res[id].(joined := Some(|s.flights|), listening := true)]),
                                          |s.flights|, id)
  {
    var n := |s.flights|;
    var started := s.flights + [Flight(kind, [], false)];
    assert started[n] == Flight(kind, [], false) && [] + [id] == [id];
    assert started[n := started[n].(callers := started[n].callers + [id])] == s.flights + [Flight(kind, [id], false)];
  }

  lemma AuthorizeKeepsInv(l: Limits, s: State, id: Id, result: AuthResult)
    requires Inv(l, s) && s.exit.None? && id in s.slots && id in s.res && s.slots[id].authPending
    ensures Inv(l, Authorize(s, id, result))
  {
    assert SlotOk(id, s.slots[id], s.res[id], s.flights) && ResOk(id, s.res[id], s.flights, s.outcomes);
    var gone := s.slots[id].reqDestroyed || s.res[id].destroyed;
    var slot := s.slots[id].(authPending := false, stage := if result.Authorized? && !gone then Receiving(false) else Over);
    // The stage changes first and the response ends afterwards; the two updates commute.
    SlotChangeKeepsInv(l, s, id, slot);
    var v := s.(slots := s.slots[id := slot]);
    var u := v;
    if !result.Authorized? && !s.res[id].destroyed {
      var status := if result.Denied? then 401 else 503;
      FlagKeepsInv(l, v, id, s.res[id].(ended := true, status := status));
      u := EndResponse(v, id, status);
    }
    assert Authorize(s, id, result) == if s.slots[id].releaseRequested || gone then ReleaseSlot(u, id) else u;
    if s.slots[id].releaseRequested || gone { ReleaseKeepsInv(l, u, id); }
  }

  lemma AbortedKeepsInv(l: Limits, s: State, id: Id)
    requires Inv(l, s) && s.exit.None? && id in s.slots && id in s.res && s.slots[id].stage.Receiving?
    ensures Inv(l, Aborted(s, id))
  {
    assert SlotOk(id, s.slots[id], s.res[id], s.flights);
    var slot := s.slots[id].(stage := Receiving(true), reqDestroyed := true);
    SlotChangeKeepsInv(l, s, id, slot);
    ReleaseKeepsInv(l, s.(slots := s.slots[id := slot]), id);
  }

  lemma OversizeKeepsInv(l: Limits, s: State, id: Id)
    requires Inv(l, s) && s.exit.None? && id in s.slots && id in s.res && s.slots[id].stage.Receiving?
    ensures Inv(l, Oversize(s, id))
  {
    if !s.slots[id].stage.aborted {
      assert SlotOk(id, s.slots[id], s.res[id], s.flights) && ResOk(id, s.res[id], s.flights, s.outcomes);
      var slot := s.slots[id].(stage := Receiving(true), reqDestroyed := true);
      SlotChangeKeepsInv(l, s, id, slot);
      var t := s.(slots := s.slots[id := slot]);
      FlagKeepsInv(l, t, id, t.res[id].(ended := true, status := 413));
      ReleaseKeepsInv(l, EndResponse(t, id, 413), id);
    }
  }

  lemma BodyEndKeepsInv(l: Limits, s: State, id: Id)
    requires Inv(l, s) && s.exit.None? && id in s.slots && id in s.res && s.slots[id].stage.Receiving?
    ensures Inv(l, BodyEnd(s, id))
  {
    assert SlotOk(id, s.slots[id], s.res[id], s.flights);
    if s.slots[id].stage.aborted || s.res[id].destroyed {
      SlotChangeKeepsInv(l, s, id, s.slots[id].(stage := Over));
    } else {
      var n := |s.flights|;
      OpenPost(s.res, s.slots, s.flights, s.configFlight, s.outcomes, id);
      SameHolding(l, s.inflight, s.clientInflight, s.slots, id, s.slots[id].(stage := Forwarded(n)));
      LaunchLive(s.(slots := s.slots[id := s.slots[id].(stage := Forwarded(n))]), Post(id), id);
    }
  }

  lemma ResFinishKeepsInv(l: Limits, s: State, id: Id)
    requires Inv(l, s) && s.exit.None? && id in s.res && s.res[id].ended
    ensures Inv(l, ResFinish(s, id))
  {
    if id in s.slots {
      assert SlotOk(id, s.slots[id], s.res[id], s.flights);
      if s.slots[id].stage.Forwarded? {
        var f := s.slots[id].stage.flight;
        assert FlightOk(f, s.flights[f], s.res, s.slots, s.configFlight);
      }
      ReleaseKeepsInv(l, s, id);
    }
  }

  lemma ResCloseKeepsInv(l: Limits, s: State, id: Id)
    requires Inv(l, s) && s.exit.None? && id in s.res
    ensures Inv(l, ResClose(s, id))
  {
    DestroyKeepsInv(l, s, id);
    var t := s.(res := s.res[id := s.res[id].(destroyed := true)]);
    assert ResOk(id, t.res[id], t.flights, t.outcomes);
    var u := t;
    if t.res[id].listening {
      ClosedKeepsInv(l, t, t.res[id].joined.value, id);
      u := Closed(t, t.res[id].joined.value, id);
    }
    if id in u.slots {
      assert SlotOk(id, u.slots[id], u.res[id], u.flights);
      assert ResOk(id, u.res[id], u.flights, u.outcomes);
      if u.slots[id].stage.Forwarded? {
        var f := u.slots[id].stage.flight;
        assert FlightOk(f, u.flights[f], u.res, u.slots, u.configFlight);
        assert id !in u.flights[f].callers;
      }
      ReleaseKeepsInv(l, u, id);
    }
  }

  /** Pointing at a completed config fetch is harmless: it only makes `add` fail. */
  lemma StalePointer(l: Limits, s: State, f: nat)
    requires Inv(l, s) && s.configFlight.None?
    requires f < |s.flights| && s.flights[f] == Flight(ConfigFetch, [], true)
    ensures Inv(l, s.(configFlight := Some(f)))
  {
    forall g | 0 <= g < |s.flights| ensures FlightOk(g, s.flights[g], s.res, s.slots, Some(f)) {
      assert FlightOk(g, s.flights[g], s.res, s.slots, s.configFlight);
    }
  }

  /** A config fetch that completes inside its own construction. */
  lemma LaunchConfigGone(l: Limits, s: State, t: State, id: Id)
    requires Inv(l, t) && id in s.res && s.res[id].destroyed && !s.res[id].ended
    requires t == s.(flights := s.flights + [Flight(ConfigFetch, [id], false)],
                     res := s.res[id := s.res[id].(joined := Some(|s.flights|), listening := true)],
                     configFlight := Some(|s.flights|))
    ensures Inv(l, Launch(s, ConfigFetch, id).(configFlight := Some(|s.flights|)))
  {
    var n := |s.flights|;
    LaunchGone(s, ConfigFetch, id);
    ClosedKeepsInv(l, t, n, id);
    ClosedShape(t, n, id);
    ClosedShape(t.(configFlight := s.configFlight), n, id);
    StalePointer(l, Closed(t, n, id), n);
  }

  lemma LaunchConfigKeepsInv(l: Limits, s: State, id: Id)
    requires Inv(l, s) && id in s.res && id !in s.slots && s.res[id].joined.None? && !s.res[id].ended
    requires s.configFlight.None? || s.flights[s.configFlight.value].completed
    ensures Inv(l, Launch(s, ConfigFetch, id).(configFlight := Some(|s.flights|)))
  {
    var n := |s.flights|;
    var t := s.(flights := s.flights + [Flight(ConfigFetch, [id], false)],
                res := s.res[id := s.res[id].(joined := Some(n), listening := true)], configFlight := Some(n));
    OpenConfig(s.res, s.slots, s.flights, s.configFlight, s.outcomes, id);
    if s.res[id].destroyed {
      LaunchConfigGone(l, s, t, id);
    } else {
      LaunchLive(s, ConfigFetch, id);
    }
  }

  lemma JoinConfigKeepsInv(l: Limits, s: State, f: nat, id: Id)
    requires Inv(l, s) && id in s.res && id !in s.slots && s.res[id].joined.None? && !s.res[id].ended
    requires f < |s.flights| && s.flights[f].kind.ConfigFetch? && !s.flights[f].completed
    ensures Inv(l, Join(s, f, id))
  {
    JoinConfig(s.res, s.slots, s.flights, s.configFlight, s.outcomes, id, f);
    var t := s.(flights := s.flights[f := s.flights[f].(callers := s.flights[f].callers + [id])],
                res := s.res[id := s.res[id].(joined := Some(f), listening := true)]);
    assert t.flights[f].callers[|s.flights[f].callers|] == id;
    if t.res[id].destroyed { ClosedKeepsInv(l, t, f, id); }
  }

  lemma ShareConfigKeepsInv(l: Limits, s: State, id: Id)
    requires Inv(l, s) && id in s.res && id !in s.slots && s.res[id].joined.None? && !s.res[id].ended
    ensures Inv(l, ShareConfig(s, id))
  {
    if s.configFlight.Some? && !s.flights[s.configFlight.value].completed {
      JoinConfigKeepsInv(l, s, s.configFlight.value, id);
    } else {
      LaunchConfigKeepsInv(l, s, id);
    }
  }

  lemma ArriveConfigShape(s: State, id: Id, destroyed: bool, cached: bool, haveGateway: bool)
    ensures ArriveConfig(s, id, destroyed, cached, haveGateway) ==
              if s.draining || cached || !haveGateway then s.(res := s.res[id := Res(destroyed, true, if s.draining then 503 else if cached then 200 else 502, None, false)])
              else ShareConfig(s.(res := s.res[id := Res(destroyed, false, 0, None, false)]), id)
  {
  }

  lemma ArriveConfigKeepsInv(l: Limits, s: State, id: Id, destroyed: bool, cached: bool, haveGateway: bool)
    requires Inv(l, s) && id !in s.res
    ensures Inv(l, ArriveConfig(s, id, destroyed, cached, haveGateway))
  {
    ArriveConfigShape(s, id, destroyed, cached, haveGateway);
    if s.draining || cached || !haveGateway {
      NewResKeepsInv(l, s, id, destroyed, true, if s.draining then 503 else if cached then 200 else 502);
    } else {
      var t := s.(res := s.res[id := Res(destroyed, false, 0, None, false)]);
      NewResKeepsInv(l, s, id, destroyed, false, 0);
      ShareConfigKeepsInv(l, t, id);
    }
  }

  lemma StepKeepsInv(l: Limits, s: State, e: Event)
    requires Inv(l, s) && Enabled(s, e)
    ensures Inv(l, Apply(l, s, e))
  {
    match e
    case EArrive(id, client, rateLimited) => ArriveKeepsInv(l, s, id, client, rateLimited);
    case EArriveConfig(id, destroyed, cached, haveGateway) => ArriveConfigKeepsInv(l, s, id, destroyed, cached, haveGateway);
    case EAuthorize(id, result) => AuthorizeKeepsInv(l, s, id, result);
    case EAborted(id) => AbortedKeepsInv(l, s, id);
    case EOversize(id) => OversizeKeepsInv(l, s, id);
    case EBodyEnd(id) => BodyEndKeepsInv(l, s, id);
    case EResFinish(id) => ResFinishKeepsInv(l, s, id);
    case EResClose(id) => ResCloseKeepsInv(l, s, id);
    case EResDestroyed(id) => DestroyKeepsInv(l, s, id);
    case EReqDestroyed(id) =>
      assert SlotOk(id, s.slots[id], s.res[id], s.flights);
      SlotChangeKeepsInv(l, s, id, s.slots[id].(reqDestroyed := true));
    case EFlightDone(f, status) => FinishKeepsInv(l, s, f, status);
    case EShutdown =>
    case EHttpClosed =>
    case EHardExit =>
  }

  lemma {:induction false} RunKeepsInv(l: Limits, states: seq<State>, events: seq<Event>, n: nat)
    requires Run(l, states, events) && n < |states|
    ensures Inv(l, states[n])
  {
    if n > 0 {
      RunKeepsInv(l, states, events, n - 1);
      StepKeepsInv(l, states[n - 1], events[n - 1]);
    }
  }
}
