/**
 Any number of issuer replicas reserving against one device row in shared storage
 (token-issuer/state-store.js, `reserve` over `azureDeviceBackend`).

 Storage is a compare-and-swap cell with fresh ETags. A conditional write that has been sent may
 take effect at any later time, be rejected for a stale ETag, or never arrive; an
 acknowledgement may be lost whatever became of the write. A 409 or 412 means the write was
 rejected, because SDK retries are off. Every other error is ambiguous.

 Each step below is one atomic action of a call or of the storage, and a run is any sequence of
 enabled steps, so the theorems quantify over every interleaving.
 */
module ReservationProtocol {
  import opened Prelude
  import opened DeviceRecord

  const MAX_ATTEMPTS := 4

  datatype Row = Row(etag: nat, value: Record)

  /** A conditional write: the ETag it expects (None creates) and the value it stores. `basis` is
      the index of the row version it was computed from. */
  datatype CasWrite = CasWrite(expected: Option<nat>, value: Record, basis: nat)

  /** The latest write of a call, as the storage knows it. */
  datatype WriteStatus = NoWrite | Pending(w: CasWrite) | Landed(w: CasWrite) | Rejected(w: CasWrite)

  /** `Exhausted` is the StateUnavailable thrown after the last attempt; `at` is the number of
      commits the row had then. The caller cannot tell it from `Unavailable`. */
  datatype Answer = Reserved | Refused(reason: Reason) | Unavailable | Exhausted(at: nat)

  datatype Phase = Reading | Writing | ReadingBack(conflict: bool) | Done(answer: Answer)

  /** `started` is the number of commits the row had when the call began. */
  datatype Call = Call(req: Request, attempt: nat, started: nat, write: WriteStatus, phase: Phase)

  /** `versions` is every value the row has held, oldest first; the last one is current. */
  datatype State = State(versions: seq<Option<Row>>, log: seq<Commit>, calls: map<CommitId, Call>)

  datatype Event =
    | Begin(id: CommitId, req: Request)
    | Read(id: CommitId)
    | Fail(id: CommitId)
    | Land(id: CommitId, etag: nat)
    | Reject(id: CommitId)
    | Ack(id: CommitId)
    | Conflict(id: CommitId)
    | LoseAck(id: CommitId)
    | ReadBack(id: CommitId)

  function EtagOf(row: Option<Row>): Option<nat> {
    if row.Some? then Some(row.value.etag) else None
  }

  function ValueOf(row: Option<Row>): Option<Record> {
    if row.Some? then Some(row.value.value) else None
  }

  function Current(s: State): Option<Row>
    requires |s.versions| > 0
  {
    s.versions[|s.versions| - 1]
  }

  ghost predicate Init(s: State) {
    |s.versions| == 1 && s.log == [] && s.calls == map[]
  }

  predicate Enabled(s: State, e: Event)
    requires |s.versions| > 0
  {
    match e
    case Begin(id, _) => id !in s.calls && forall v :: v in s.versions && v.Some? ==> v.value.value.commitId != id
    case Read(id) => id in s.calls && s.calls[id].phase.Reading?
    case Fail(id) => id in s.calls && (s.calls[id].phase.Reading? || s.calls[id].phase.ReadingBack?)
    case Land(id, etag) =>
      && id in s.calls && s.calls[id].write.Pending? && EtagOf(Current(s)) == s.calls[id].write.w.expected
      && forall v :: v in s.versions && v.Some? ==> v.value.etag != etag
    case Reject(id) => id in s.calls && s.calls[id].write.Pending? && EtagOf(Current(s)) != s.calls[id].write.w.expected
    case Ack(id) => id in s.calls && s.calls[id].phase.Writing? && s.calls[id].write.Landed?
    case Conflict(id) => id in s.calls && s.calls[id].phase.Writing? && s.calls[id].write.Rejected?
    case LoseAck(id) => id in s.calls && s.calls[id].phase.Writing?
    case ReadBack(id) => id in s.calls && s.calls[id].phase.ReadingBack?
  }

  function Apply(quota: nat, s: State, e: Event): State
    requires |s.versions| > 0 && Enabled(s, e)
  {
    match e
    case Begin(id, req) =>
      s.(calls := s.calls[id := Call(req, 0, |s.log|, NoWrite, if ValidRequest(req) then Reading else Done(Unavailable))])
    case Read(id) =>
      s.(calls := s.calls[id := AfterRead(quota, s, id)])
    case Fail(id) =>
      s.(calls := s.calls[id := s.calls[id].(phase := Done(Unavailable))])
    case Land(id, etag) =>
      var c := s.calls[id];
      State(s.versions + [Some(Row(etag, c.write.w.value))],
            s.log + [Commit(id, c.req)],
            s.calls[id := c.(write := Landed(c.write.w))])
    case Reject(id) =>
      s.(calls := s.calls[id := s.calls[id].(write := Rejected(s.calls[id].write.w))])
    case Ack(id) =>
      s.(calls := s.calls[id := s.calls[id].(phase := Done(Reserved))])
    case Conflict(id) =>
      s.(calls := s.calls[id := s.calls[id].(phase := ReadingBack(true))])
    case LoseAck(id) =>
      s.(calls := s.calls[id := s.calls[id].(phase := ReadingBack(false))])
    case ReadBack(id) =>
      s.(calls := s.calls[id := AfterReadBack(s, id)])
  }

  /** One attempt: read, decide, and send the conditional write or answer. */
  function AfterRead(quota: nat, s: State, id: CommitId): Call
    requires |s.versions| > 0 && id in s.calls
  {
    var c := s.calls[id];
    match Decide(quota, ValueOf(Current(s)), id, c.req)
    case Write(v) => c.(write := Pending(CasWrite(EtagOf(Current(s)), v, |s.versions| - 1)), phase := Writing)
    case Refuse(reason) => c.(phase := Done(Refused(reason)))
    case Throw => c.(phase := Done(Unavailable))
  }

  /** After a failed put: our own commit id in the row is a lost acknowledgement, otherwise only
      a definite conflict may be retried. */
  function AfterReadBack(s: State, id: CommitId): Call
    requires |s.versions| > 0 && id in s.calls && s.calls[id].phase.ReadingBack?
  {
    var c := s.calls[id];
    if Current(s).Some? && Current(s).value.value.commitId == id then c.(phase := Done(Reserved))
    else if !c.phase.conflict then c.(phase := Done(Unavailable))
    else if c.attempt + 1 < MAX_ATTEMPTS then c.(attempt := c.attempt + 1, write := NoWrite, phase := Reading)
    else c.(phase := Done(Exhausted(|s.log|)))
  }

  /** A run: a start state and any sequence of enabled events. */
  ghost predicate Run(quota: nat, states: seq<State>, events: seq<Event>) {
    && |states| == |events| + 1
    && Init(states[0])
    && forall i {:trigger events[i]} :: 0 <= i < |events| ==>
         |states[i].versions| > 0 && Enabled(states[i], events[i]) && states[i + 1] == Apply(quota, states[i], events[i])
  }

  ghost function Values(s: State): seq<Option<Record>> {
    seq(|s.versions|, i requires 0 <= i < |s.versions| => ValueOf(s.versions[i]))
  }

  /** Commits made by a call. */
  ghost function Commits(log: seq<Commit>, id: CommitId): nat {
    if log == [] then 0
    else Commits(log[..|log| - 1], id) + if log[|log| - 1].id == id then 1 else 0
  }

  // ----- The invariant -----

  ghost predicate RowsOk(quota: nat, versions: seq<Option<Row>>, log: seq<Commit>) {
    && |versions| == |log| + 1
    && (forall i :: 0 < i < |versions| ==> versions[i].Some?)
    && (forall i, j :: 0 <= i < j < |versions| && versions[i].Some? && versions[j].Some? ==>
          versions[i].value.etag != versions[j].value.etag)
    && (forall i :: 0 <= i < |log| ==> Link(quota, ValueOf(versions[i]), log[i], ValueOf(versions[i + 1])))
  }

  ghost predicate InLog(log: seq<Commit>, id: CommitId) {
    exists i :: 0 <= i < |log| && log[i].id == id
  }

  /** Committed calls: no id twice, each with the request its call was made with. */
  ghost predicate LogOk(log: seq<Commit>, calls: map<CommitId, Call>) {
    && (forall i :: 0 <= i < |log| ==>
          log[i].id in calls && log[i].req == calls[log[i].id].req && calls[log[i].id].write.Landed?)
    && (forall i, j :: 0 <= i < j < |log| ==> log[i].id != log[j].id)
  }

  /** A write was computed by the decision from the version whose ETag it carries. */
  ghost predicate WriteOk(quota: nat, versions: seq<Option<Row>>, id: CommitId, c: Call, w: CasWrite) {
    && ValidRequest(c.req)
    && c.started + c.attempt <= w.basis < |versions|
    && w.expected == EtagOf(versions[w.basis])
    && Decide(quota, ValueOf(versions[w.basis]), id, c.req) == Write(w.value)
  }

  ghost predicate CallOk(quota: nat, versions: seq<Option<Row>>, log: seq<Commit>, id: CommitId, c: Call) {
    && c.attempt < MAX_ATTEMPTS && c.started <= |log| < |versions|
    && (versions[0].Some? ==> versions[0].value.value.commitId != id)
    && (!c.write.NoWrite? ==> WriteOk(quota, versions, id, c, c.write.w))
    && (c.write.Landed? ==> InLog(log, id))
    && (c.write.Rejected? ==> c.write.w.basis < |log|)
    && match c.phase
       case Reading => c.write.NoWrite? && ValidRequest(c.req) && c.started + c.attempt <= |log|
       case Writing => !c.write.NoWrite?
       case ReadingBack(conflict) => !c.write.NoWrite? && (conflict ==> c.write.Rejected?)
       case Done(answer) =>
         && (answer.Reserved? ==> c.write.Landed?)
         && (answer.Refused? ==> c.write.NoWrite?)
         && (answer.Exhausted? ==> c.write.Rejected? && c.started + MAX_ATTEMPTS <= answer.at <= |log|)
  }

  ghost predicate Inv(quota: nat, s: State) {
    && |s.versions| > 0
    && RowsOk(quota, s.versions, s.log)
    && LogOk(s.log, s.calls)
    && forall id :: id in s.calls ==> CallOk(quota, s.versions, s.log, id, s.calls[id])
  }

  lemma LandKeepsRows(quota: nat, s: State, e: Event)
    requires Inv(quota, s) && Enabled(s, e) && e.Land?
    ensures var t := Apply(quota, s, e); RowsOk(quota, t.versions, t.log)
  {
  }

  /** What holds of a call keeps holding when a commit is added to the row; a pending write that
      turns out to be that commit becomes a landed one. */
  lemma CallOkGrows(quota: nat, versions: seq<Option<Row>>, log: seq<Commit>, v: Option<Row>, k: Commit, id: CommitId, c: Call)
    requires CallOk(quota, versions, log, id, c)
    ensures CallOk(quota, versions + [v], log + [k], id, c)
    ensures c.write.Pending? && k.id == id ==> CallOk(quota, versions + [v], log + [k], id, c.(write := Landed(c.write.w)))
  {
    assert (log + [k])[|log|] == k;
    if c.write.Landed? {
      var i :| 0 <= i < |log| && log[i].id == id;
      assert (log + [k])[i].id == id;
    }
  }

  lemma LandKeepsInv(quota: nat, s: State, e: Event)
    requires Inv(quota, s) && Enabled(s, e) && e.Land?
    ensures Inv(quota, Apply(quota, s, e))
  {
    var t := Apply(quota, s, e);
    var c := s.calls[e.id];
    LandKeepsRows(quota, s, e);
    forall id | id in t.calls ensures CallOk(quota, t.versions, t.log, id, t.calls[id]) {
      CallOkGrows(quota, s.versions, s.log, Some(Row(e.etag, c.write.w.value)), Commit(e.id, c.req), id, s.calls[id]);
    }
  }

  /** Finding our own id in the row means our write landed. */
  lemma OwnIdMeansLanded(quota: nat, s: State, id: CommitId)
    requires Inv(quota, s) && id in s.calls
    requires Current(s).Some? && Current(s).value.value.commitId == id
    ensures s.calls[id].write.Landed?
  {
    var n := |s.log|;
    assert CallOk(quota, s.versions, s.log, id, s.calls[id]);
    assert Link(quota, ValueOf(s.versions[n - 1]), s.log[n - 1], ValueOf(s.versions[n]));
    assert s.log[n - 1].id == id;
  }

  /** A read leaves its call in order: the write it sends was decided on the current version. */
  lemma ReadOk(quota: nat, s: State, id: CommitId)
    requires |s.versions| == |s.log| + 1 && Enabled(s, Read(id)) && CallOk(quota, s.versions, s.log, id, s.calls[id])
    ensures CallOk(quota, s.versions, s.log, id, AfterRead(quota, s, id))
  {
  }

  lemma ReadBackOk(quota: nat, s: State, id: CommitId)
    requires Inv(quota, s) && Enabled(s, ReadBack(id))
    ensures CallOk(quota, s.versions, s.log, id, AfterReadBack(s, id))
    ensures s.calls[id].write.Landed? ==> AfterReadBack(s, id).write.Landed?
  {
    assert CallOk(quota, s.versions, s.log, id, s.calls[id]);
    if Current(s).Some? && Current(s).value.value.commitId == id {
      OwnIdMeansLanded(quota, s, id);
    }
  }

  /** The call that takes a step is in order afterwards, and nothing else moves. */
  lemma StepperOk(quota: nat, s: State, e: Event) returns (c: Call)
    requires Inv(quota, s) && Enabled(s, e) && !e.Land?
    ensures Apply(quota, s, e) == s.(calls := s.calls[e.id := c])
    ensures CallOk(quota, s.versions, s.log, e.id, c)
    ensures e.id in s.calls ==> c.req == s.calls[e.id].req && (s.calls[e.id].write.Landed? ==> c.write.Landed?)
  {
    if e.id in s.calls { assert CallOk(quota, s.versions, s.log, e.id, s.calls[e.id]); }
    if e.Read? {
      ReadOk(quota, s, e.id);
      c := AfterRead(quota, s, e.id);
    } else if e.ReadBack? {
      ReadBackOk(quota, s, e.id);
      c := AfterReadBack(s, e.id);
    } else {
      c := Apply(quota, s, e).calls[e.id];
    }
  }

  lemma CallChangeKeepsInv(quota: nat, s: State, id: CommitId, c: Call)
    requires Inv(quota, s) && CallOk(quota, s.versions, s.log, id, c)
    requires id in s.calls ==> c.req == s.calls[id].req && (s.calls[id].write.Landed? ==> c.write.Landed?)
    ensures Inv(quota, s.(calls := s.calls[id := c]))
  {
  }

  lemma CallStepKeepsInv(quota: nat, s: State, e: Event)
    requires Inv(quota, s) && Enabled(s, e) && !e.Land?
    ensures Inv(quota, Apply(quota, s, e))
  {
    var c := StepperOk(quota, s, e);
    CallChangeKeepsInv(quota, s, e.id, c);
  }

  lemma StepKeepsInv(quota: nat, s: State, e: Event)
    requires Inv(quota, s) && Enabled(s, e)
    ensures Inv(quota, Apply(quota, s, e))
  {
    if e.Land? {
      LandKeepsInv(quota, s, e);
    } else {
      CallStepKeepsInv(quota, s, e);
    }
  }

  lemma {:induction false} RunKeepsInv(quota: nat, states: seq<State>, events: seq<Event>, n: nat)
    requires Run(quota, states, events) && n < |states|
    ensures Inv(quota, states[n])
  {
    if n > 0 {
      RunKeepsInv(quota, states, events, n - 1);
      StepKeepsInv(quota, states[n - 1], events[n - 1]);
    }
  }

  // ----- Theorems over every run -----

  /**
   Linearizability. In every state of every run, the values the row has held are exactly the
   chain of single-step decisions on the committed requests in commit order, and every stored
   value passes `checked`.
   */
  lemma Linearizable(quota: nat, states: seq<State>, events: seq<Event>, n: nat)
    requires Run(quota, states, events) && n < |states|
    ensures Chain(quota, Values(states[n]), states[n].log)
    ensures forall i :: 0 < i < |states[n].versions| ==> states[n].versions[i].Some? && Checked(states[n].versions[i].value.value)
  {
    RunKeepsInv(quota, states, events, n);
    var s := states[n];
    InvGivesChain(quota, s);
    forall i | 0 < i < |s.versions| ensures s.versions[i].Some? && Checked(s.versions[i].value.value) {
      ChainChecked(quota, Values(s), s.log, i);
    }
  }

  lemma InvGivesChain(quota: nat, s: State)
    requires Inv(quota, s)
    ensures Chain(quota, Values(s), s.log)
  {
  }

  /** The tokens ever committed to one epoch never exceed a positive quota, in any run. */
  lemma QuotaNeverExceeded(quota: nat, states: seq<State>, events: seq<Event>, n: nat, epoch: int)
    requires quota > 0 && Run(quota, states, events) && n < |states|
    ensures Charged(states[n].log, epoch) <= quota
  {
    Linearizable(quota, states, events, n);
    QuotaBound(quota, Values(states[n]), states[n].log, epoch);
  }

  /** Assertion counters strictly increase in commit order, in any run. */
  lemma NoCounterReplay(quota: nat, states: seq<State>, events: seq<Event>, n: nat, i: nat, j: nat)
    requires Run(quota, states, events) && n < |states|
    requires i < j < |states[n].log|
    ensures states[n].log[i].req.pem == states[n].log[j].req.pem
    ensures states[n].log[j].req.mode.Assertion? ==> states[n].log[i].req.signCount < states[n].log[j].req.signCount
  {
    Linearizable(quota, states, events, n);
    CountersIncrease(quota, Values(states[n]), states[n].log, i, j);
  }

  lemma {:induction false} CommitsAbsent(log: seq<Commit>, id: CommitId)
    requires forall i :: 0 <= i < |log| ==> log[i].id != id
    ensures Commits(log, id) == 0
  {
    if log != [] { CommitsAbsent(log[..|log| - 1], id); }
  }

  lemma {:induction false} CommitsOnce(log: seq<Commit>, id: CommitId, k: nat)
    requires k < |log| && log[k].id == id
    requires forall i, j :: 0 <= i < j < |log| ==> log[i].id != log[j].id
    ensures Commits(log, id) == 1
  {
    var n := |log| - 1;
    if k == n {
      CommitsAbsent(log[..n], id);
    } else {
      CommitsOnce(log[..n], id, k);
    }
  }

  /**
   Exactly once. In every state of every run, hence also long after the call has answered: a call
   that answered ok has committed exactly once, a call that was refused or ran out of attempts
   has not committed at all, and no call has committed more than once, whatever mix of conflicts
   and lost acknowledgements its attempts met and however late its last write landed.
   */
  lemma ExactlyOnce(quota: nat, states: seq<State>, events: seq<Event>, n: nat, id: CommitId)
    requires Run(quota, states, events) && n < |states|
    requires id in states[n].calls
    ensures Commits(states[n].log, id) <= 1
    ensures states[n].calls[id].phase == Done(Reserved) ==> Commits(states[n].log, id) == 1
    ensures states[n].calls[id].phase.Done? && (states[n].calls[id].phase.answer.Refused? || states[n].calls[id].phase.answer.Exhausted?) ==>
              Commits(states[n].log, id) == 0
  {
    RunKeepsInv(quota, states, events, n);
    var s := states[n];
    assert CallOk(quota, s.versions, s.log, id, s.calls[id]);
    if InLog(s.log, id) {
      var k :| 0 <= k < |s.log| && s.log[k].id == id;
      CommitsOnce(s.log, id, k);
    } else {
      CommitsAbsent(s.log, id);
    }
  }

  /**
   Contention alone cannot fail a call. One that ran out of its four attempts saw at least four
   commits between its start and its failure, and none of them, then or later, was its own.
   */
  lemma ExhaustedWasOvertaken(quota: nat, states: seq<State>, events: seq<Event>, n: nat, id: CommitId)
    requires Run(quota, states, events) && n < |states|
    requires id in states[n].calls
    requires states[n].calls[id].phase.Done? && states[n].calls[id].phase.answer.Exhausted?
    ensures states[n].calls[id].started + 4 <= states[n].calls[id].phase.answer.at <= |states[n].log|
    ensures forall i :: 0 <= i < |states[n].log| ==> states[n].log[i].id != id
  {
    RunKeepsInv(quota, states, events, n);
    assert CallOk(quota, states[n].versions, states[n].log, id, states[n].calls[id]);
  }
}
