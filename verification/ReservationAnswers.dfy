/**
 When `reserve` answers what (token-issuer/state-store.js). `ReservationProtocol` says what an answer
 implies; this module says, for every run, exactly when each answer is given, as conditions on the
 requests committed so far and on what happened to the call's own write.
 */
module ReservationAnswers {
  import opened Prelude
  import opened DeviceRecord
  import opened ReservationProtocol

  /** The row that was there before the run. */
  ghost function StartOf(s: State): Option<Record>
    requires |s.versions| > 0
  {
    ValueOf(s.versions[0])
  }

  /** The last commit is this call's. */
  ghost predicate CommittedLast(s: State, id: CommitId) {
    s.log != [] && s.log[|s.log| - 1].id == id
  }

  ghost predicate Answers(s: State, id: CommitId, answer: Answer) {
    id in s.calls && s.calls[id].phase == Done(answer)
  }

  /** A mode other than the two, a key of more than 4096 characters, a number that is no safe integer or is
      negative, or no token asked for. */
  ghost predicate Malformed(req: Request) {
    || (req.mode != Attestation && req.mode != Assertion)
    || |req.pem| > 4096
    || !(0 <= req.signCount <= MAX_SAFE_INTEGER && 0 <= req.epoch <= MAX_SAFE_INTEGER && 1 <= req.count <= MAX_SAFE_INTEGER)
  }

  /** The request is one that the commits so far leave room for. */
  ghost predicate Admissible(quota: nat, start: Option<Record>, log: seq<Commit>, req: Request) {
    var total := Spent(start, log, req.epoch) + req.count;
    && Entitled(start, log, req) && EpochOpen(start, log, req.epoch)
    && total <= MAX_SAFE_INTEGER && (quota > 0 ==> total <= quota)
  }

  /** Why the commits so far rule the request out. */
  ghost predicate RuledOut(quota: nat, start: Option<Record>, log: seq<Commit>, req: Request, reason: Reason) {
    var total := Spent(start, log, req.epoch) + req.count;
    match reason
    case UnknownDeviceKey => req.mode.Assertion? && !Known(start, log)
    case KeyMismatch => Known(start, log) && !SameKey(start, log, req.pem)
    case ReplayedAssertion =>
      req.mode.Assertion? && Known(start, log) && SameKey(start, log, req.pem) && !FreshCounter(start, log, req.signCount)
    case ExpiredEpoch => Entitled(start, log, req) && !EpochOpen(start, log, req.epoch)
    case QuotaExceeded => Entitled(start, log, req) && EpochOpen(start, log, req.epoch) && total <= MAX_SAFE_INTEGER && 0 < quota < total
  }

  lemma CurrentIsLast(quota: nat, s: State)
    requires Inv(quota, s)
    ensures Chain(quota, Values(s), s.log) && Values(s)[|s.log|] == ValueOf(Current(s)) && Values(s)[0] == StartOf(s)
  {
    InvGivesChain(quota, s);
  }

  /** The decision on the current row, by the log of the run. */
  lemma DecidedInState(quota: nat, s: State, id: CommitId, req: Request)
    requires Inv(quota, s) && ValidRequest(req)
    requires StartOf(s).Some? ==> Checked(StartOf(s).value)
    ensures var d := Decide(quota, ValueOf(Current(s)), id, req);
            && (d.Write? <==> Admissible(quota, StartOf(s), s.log, req))
            && (forall reason :: d == Refuse(reason) <==> RuledOut(quota, StartOf(s), s.log, req, reason))
  {
    CurrentIsLast(quota, s);
    DecidedByLog(quota, Values(s), s.log, id, req);
  }

  /**
   A read decides by the log. In any run, a call that reads the row goes on to write if and only if the
   requests committed so far leave room for its own, is refused for a reason exactly when they rule it
   out for that reason, and is otherwise unavailable: the sum would not be a safe integer.
   */
  lemma ReadDecides(quota: nat, states: seq<State>, events: seq<Event>, n: nat, id: CommitId)
    requires Run(quota, states, events) && n < |events| && events[n] == Read(id)
    requires |states[n].versions| > 0 && (StartOf(states[n]).Some? ==> Checked(StartOf(states[n]).value))
    ensures id in states[n].calls && id in states[n + 1].calls
    ensures var s, req, phase := states[n], states[n].calls[id].req, states[n + 1].calls[id].phase;
            && (phase.Writing? <==> Admissible(quota, StartOf(s), s.log, req))
            && (forall reason :: phase == Done(Refused(reason)) <==> RuledOut(quota, StartOf(s), s.log, req, reason))
            && (phase == Done(Unavailable) <==>
                  Entitled(StartOf(s), s.log, req) && EpochOpen(StartOf(s), s.log, req.epoch)
                  && Spent(StartOf(s), s.log, req.epoch) + req.count > MAX_SAFE_INTEGER)
  {
    TurnOf(quota, states, events, n);
    var s := states[n];
    assert CallOk(quota, s.versions, s.log, id, s.calls[id]);
    DecidedInState(quota, s, id, s.calls[id].req);
    CurrentIsLast(quota, s);
    DecidedByLog(quota, Values(s), s.log, id, s.calls[id].req);
  }

  /** A row that fails the check lets nobody in: nothing is ever committed and every read is unavailable. */
  lemma {:induction false} CorruptRowIsStuck(quota: nat, states: seq<State>, events: seq<Event>, n: nat, id: CommitId)
    requires Run(quota, states, events) && n < |events| && events[n] == Read(id) && |states[n].versions| > 0
    requires StartOf(states[n]).Some? && !Checked(StartOf(states[n]).value)
    ensures states[n].log == [] && Answers(states[n + 1], id, Unavailable)
  {
    TurnOf(quota, states, events, n);
    CommittedOnChecked(quota, states[n]);
  }

  lemma CommittedOnChecked(quota: nat, s: State)
    requires Inv(quota, s)
    ensures s.log != [] && StartOf(s).Some? ==> Checked(StartOf(s).value)
  {
    if s.log != [] { WriteEffect(quota, ValueOf(s.versions[0]), s.log[0], ValueOf(s.versions[1])); }
  }

  /** Our own id in the row means ours was the last commit, and the other way round. */
  lemma OwnIdMeansLast(quota: nat, s: State, id: CommitId)
    requires Inv(quota, s) && id in s.calls
    ensures Current(s).Some? && Current(s).value.value.commitId == id <==> CommittedLast(s, id)
    ensures CommittedLast(s, id) ==> s.calls[id].write.Landed?
  {
    assert CallOk(quota, s.versions, s.log, id, s.calls[id]);
    if s.log != [] {
      var n := |s.log| - 1;
      assert Link(quota, ValueOf(s.versions[n]), s.log[n], ValueOf(s.versions[n + 1]));
      assert s.log[n].id in s.calls;
    }
  }

  /** One turn of a run. */
  lemma TurnOf(quota: nat, states: seq<State>, events: seq<Event>, n: nat)
    requires Run(quota, states, events) && n < |events|
    ensures Inv(quota, states[n]) && Enabled(states[n], events[n]) && states[n + 1] == Apply(quota, states[n], events[n])
  {
    RunKeepsInv(quota, states, events, n);
  }

  lemma ReadBackInState(quota: nat, s: State, id: CommitId)
    requires Inv(quota, s) && Enabled(s, ReadBack(id))
    ensures var c, d := s.calls[id], AfterReadBack(s, id);
            && (d.phase == Done(Reserved) <==> CommittedLast(s, id))
            && (d.phase == Done(Unavailable) <==> !CommittedLast(s, id) && !c.phase.conflict)
            && (d.phase == Reading && d.attempt == c.attempt + 1 && d.write == NoWrite <==> c.phase.conflict && c.attempt + 1 < 4)
            && (d.phase == Done(Exhausted(|s.log|)) <==> c.phase.conflict && c.attempt + 1 == 4)
            && !d.phase.ReadingBack? && !d.phase.Writing?
  {
    assert CallOk(quota, s.versions, s.log, id, s.calls[id]);
    OwnIdMeansLast(quota, s, id);
  }

  /**
   What a read-back answers, in any run: ok exactly when the call's own commit is the last one; otherwise
   a definite conflict goes round again or ends the fourth attempt, and anything else is unavailable,
   because the write may have been overwritten or may still land.
   */
  lemma ReadBackAnswers(quota: nat, states: seq<State>, events: seq<Event>, n: nat, id: CommitId)
    requires Run(quota, states, events) && n < |events| && events[n] == ReadBack(id)
    ensures id in states[n].calls && states[n].calls[id].phase.ReadingBack? && id in states[n + 1].calls
    ensures var s, c, d := states[n], states[n].calls[id], states[n + 1].calls[id];
            && (d.phase == Done(Reserved) <==> CommittedLast(s, id))
            && (d.phase == Done(Unavailable) <==> !CommittedLast(s, id) && !c.phase.conflict)
            && (d.phase == Reading && d.attempt == c.attempt + 1 && d.write == NoWrite <==> c.phase.conflict && c.attempt + 1 < 4)
            && (d.phase == Done(Exhausted(|s.log|)) <==> c.phase.conflict && c.attempt + 1 == 4)
  {
    TurnOf(quota, states, events, n);
    ReadBackInState(quota, states[n], id);
  }

  /**
   The turn in which an answer is given. A call becomes unavailable in a turn if and only if it is made
   with a malformed request, a storage read of it fails, its read throws, or its read-back cannot tell;
   it becomes ok if and only if its write is acknowledged or its read-back finds its own commit last;
   and it is refused only by a read.
   */
  lemma AnsweredExactlyThen(quota: nat, states: seq<State>, events: seq<Event>, n: nat, id: CommitId)
    requires Run(quota, states, events) && n < |events|
    requires id in states[n].calls ==> !states[n].calls[id].phase.Done?
    ensures var s, t, e := states[n], states[n + 1], events[n];
            && (Answers(t, id, Unavailable) <==>
                  || (e.Begin? && e.id == id && Malformed(e.req))
                  || e == Fail(id)
                  || (e == Read(id) && |s.versions| > 0 && Decide(quota, ValueOf(Current(s)), id, s.calls[id].req).Throw?)
                  || (e == ReadBack(id) && !s.calls[id].phase.conflict && !CommittedLast(s, id)))
            && (Answers(t, id, Reserved) <==> e == Ack(id) || (e == ReadBack(id) && CommittedLast(s, id)))
            && (forall reason :: Answers(t, id, Refused(reason)) ==> e == Read(id))
  {
    TurnOf(quota, states, events, n);
    if events[n] == ReadBack(id) { ReadBackInState(quota, states[n], id); }
  }

  /** An answer once given stays. */
  lemma {:induction false} AnswersStay(quota: nat, states: seq<State>, events: seq<Event>, m: nat, n: nat, id: CommitId, answer: Answer)
    requires Run(quota, states, events) && m <= n < |states| && Answers(states[m], id, answer)
    ensures Answers(states[n], id, answer)
    decreases n - m
  {
    if m < n {
      AnswersStay(quota, states, events, m, n - 1, id, answer);
      AnswerStays(quota, states[n - 1], events[n - 1], id);
      assert states[n - 1 + 1] == Apply(quota, states[n - 1], events[n - 1]);
    }
  }

  lemma AnswerStays(quota: nat, s: State, e: Event, id: CommitId)
    requires |s.versions| > 0 && Enabled(s, e) && id in s.calls && s.calls[id].phase.Done?
    ensures id in Apply(quota, s, e).calls && Apply(quota, s, e).calls[id].phase == s.calls[id].phase
  {
  }

  lemma ExtendRun(quota: nat, states: seq<State>, events: seq<Event>, e: Event) returns (longer: seq<State>, more: seq<Event>)
    requires Run(quota, states, events)
    requires |states[|events|].versions| > 0 && Enabled(states[|events|], e)
    ensures Run(quota, longer, more) && more == events + [e] && longer[|more|] == Apply(quota, states[|events|], e)
  {
    longer, more := states + [Apply(quota, states[|events|], e)], events + [e];
    forall i | 0 <= i < |more|
      ensures |longer[i].versions| > 0 && Enabled(longer[i], more[i]) && longer[i + 1] == Apply(quota, longer[i], more[i])
    {
      if i < |events| { assert longer[i] == states[i] && more[i] == events[i]; }
    }
  }

  /** After any run, the write of a fresh request that there is room for can be sent and can land. */
  lemma CanLand(quota: nat, states: seq<State>, events: seq<Event>, id: CommitId, req: Request, etag: nat)
    returns (longer: seq<State>, more: seq<Event>)
    requires Run(quota, states, events) && ValidRequest(req)
    requires var s := states[|events|];
             && |s.versions| > 0 && Enabled(s, Begin(id, req)) && Decide(quota, ValueOf(Current(s)), id, req).Write?
             && forall v :: v in s.versions && v.Some? ==> v.value.etag != etag
    ensures Run(quota, longer, more) && more == events + [Begin(id, req), Read(id), Land(id, etag)]
    ensures longer[|more|].log == states[|events|].log + [Commit(id, req)]
    ensures var t := longer[|more|]; |t.versions| > 0 && id in t.calls && t.calls[id].phase.Writing? && t.calls[id].write.Landed?
  {
    longer, more := ExtendRun(quota, states, events, Begin(id, req));
    longer, more := ExtendRun(quota, longer, more, Read(id));
    longer, more := ExtendRun(quota, longer, more, Land(id, etag));
  }

  /** A landed write is answered ok, with its acknowledgement or without it. */
  lemma LandedIsAnswered(quota: nat, states: seq<State>, events: seq<Event>, id: CommitId, lost: bool)
    returns (longer: seq<State>, more: seq<Event>)
    requires Run(quota, states, events) && CommittedLast(states[|events|], id)
    requires var s := states[|events|]; |s.versions| > 0 && id in s.calls && s.calls[id].phase.Writing? && s.calls[id].write.Landed?
    ensures Run(quota, longer, more) && more == events + if lost then [LoseAck(id), ReadBack(id)] else [Ack(id)]
    ensures Answers(longer[|more|], id, Reserved) && longer[|more|].log == states[|events|].log
  {
    if lost {
      RunKeepsInv(quota, states, events, |events|);
      OwnIdMeansLast(quota, states[|events|], id);
      longer, more := ExtendRun(quota, states, events, LoseAck(id));
      longer, more := ExtendRun(quota, longer, more, ReadBack(id));
    } else {
      longer, more := ExtendRun(quota, states, events, Ack(id));
    }
  }

  /**
   A lost acknowledgement costs nothing. After any run, a fresh valid request that the commits so far leave
   room for is answered ok once its write lands undisturbed, whether the acknowledgement arrives
   or is lost and the row is read back; and it has committed exactly then.
   */
  lemma ReservesOnceUndisturbed(quota: nat, states: seq<State>, events: seq<Event>, id: CommitId, req: Request, etag: nat, lost: bool)
    returns (longer: seq<State>, more: seq<Event>)
    requires Run(quota, states, events)
    requires var s := states[|events|];
             && |s.versions| > 0 && Enabled(s, Begin(id, req)) && (StartOf(s).Some? ==> Checked(StartOf(s).value))
             && Admissible(quota, StartOf(s), s.log, req) && (forall v :: v in s.versions && v.Some? ==> v.value.etag != etag)
    requires ValidRequest(req)
    ensures Run(quota, longer, more)
    ensures more == events + [Begin(id, req), Read(id), Land(id, etag)] + if lost then [LoseAck(id), ReadBack(id)] else [Ack(id)]
    ensures Answers(longer[|more|], id, Reserved) && longer[|more|].log == states[|events|].log + [Commit(id, req)]
  {
    RunKeepsInv(quota, states, events, |events|);
    DecidedInState(quota, states[|events|], id, req);
    longer, more := CanLand(quota, states, events, id, req, etag);
    longer, more := LandedIsAnswered(quota, longer, more, id, lost);
  }
}
