/**
 POST /issue (token-issuer/server.js, `handleIssue`): decode and bind the batch, reserve in the
 current epoch, then blind-sign with the key of the epoch the batch was bound to. The reservation
 step is the protocol of `ReservationProtocol`, with all its faults and interleavings.
 */
module Issuance {
  import opened Prelude
  import opened DeviceRecord
  import opened ReservationProtocol
  import opened PayloadBinding

  /** A request body after JSON parsing; a `blinded` entry is None when it is not a string. */
  datatype Input = Input(clientDataHash: Option<seq<byte>>, blinded: seq<Option<seq<byte>>>)

  datatype Config = Config(binding: bool, maxTokens: int, hash: seq<byte> -> seq<byte>)

  datatype Rejection = BadBatchSize | BadBlindedType | BadBlindedLength | BindingFailed

  /** What the checks before the reservation produce: the epoch to sign for and the messages. */
  datatype Ticket = Ticket(keyEpoch: int, messages: seq<seq<byte>>)

  ghost predicate AllMessages(blinded: seq<Option<seq<byte>>>, messages: seq<seq<byte>>) {
    |messages| == |blinded| && forall i :: 0 <= i < |blinded| ==> blinded[i] == Some(messages[i])
  }

  /** The decoding loop: all messages in order, or the first malformed entry's complaint. */
  method Decode(blinded: seq<Option<seq<byte>>>) returns (r: Result<seq<seq<byte>>, Rejection>)
    ensures r == DecodeAll(blinded)
    ensures r.Ok? <==> forall i :: 0 <= i < |blinded| ==> blinded[i].Some? && |blinded[i].value| == MESSAGE_BYTES
    ensures r.Ok? ==> AllMessages(blinded, r.value) && AllFullSize(r.value)
  {
    var messages: seq<seq<byte>> := [];
    PrependNothing(DecodeAll(blinded));
    assert blinded[0..] == blinded;
    for i := 0 to |blinded|
      invariant |messages| == i
      invariant forall k :: 0 <= k < i ==> blinded[k] == Some(messages[k])
      invariant AllFullSize(messages)
      invariant DecodeAll(blinded) == Prepend(messages, DecodeAll(blinded[i..]))
    {
      assert blinded[i..][1..] == blinded[i + 1..];
      if blinded[i].None? { return Err(BadBlindedType); }
      var buf := blinded[i].value;
      if |buf| != MESSAGE_BYTES { return Err(BadBlindedLength); }
      PrependStep(messages, buf, DecodeAll(blinded[i + 1..]));
      messages := messages + [buf];
    }
    assert messages + [] == messages;
    return Ok(messages);
  }

  lemma PrependNothing(r: Result<seq<seq<byte>>, Rejection>)
    ensures Prepend([], r) == r
  {
    if r.Ok? { assert [] + r.value == r.value; }
  }

  function Prepend(messages: seq<seq<byte>>, r: Result<seq<seq<byte>>, Rejection>): Result<seq<seq<byte>>, Rejection> {
    if r.Ok? then Ok(messages + r.value) else r
  }

  lemma PrependStep(messages: seq<seq<byte>>, buf: seq<byte>, r: Result<seq<seq<byte>>, Rejection>)
    ensures Prepend(messages, Prepend([buf], r)) == Prepend(messages + [buf], r)
  {
    if r.Ok? { assert messages + ([buf] + r.value) == messages + [buf] + r.value; }
  }

  function DecodeAll(blinded: seq<Option<seq<byte>>>): Result<seq<seq<byte>>, Rejection> {
    if blinded == [] then Ok([])
    else if blinded[0].None? then Err(BadBlindedType)
    else if |blinded[0].value| != MESSAGE_BYTES then Err(BadBlindedLength)
    else Prepend([blinded[0].value], DecodeAll(blinded[1..]))
  }

  /** The checks of `handleIssue` up to the reservation. */
  function Admit(cfg: Config, input: Input, epoch: int): Result<Ticket, Rejection> {
    if |input.blinded| < 1 || |input.blinded| > cfg.maxTokens then Err(BadBatchSize)
    else match DecodeAll(input.blinded)
      case Err(e) => Err(e)
      case Ok(messages) =>
        if !cfg.binding then Ok(Ticket(epoch, messages))
        else match BoundEpoch(cfg.hash, input.clientDataHash, messages, epoch)
          case None => Err(BindingFailed)
          case Some(keyEpoch) => Ok(Ticket(keyEpoch, messages))
  }

  /** An admitted batch is signed for the current epoch, or with binding on perhaps the previous. */
  lemma LabelIsRecent(cfg: Config, input: Input, epoch: int)
    requires Admit(cfg, input, epoch).Ok?
    ensures Admit(cfg, input, epoch).value.keyEpoch == epoch ||
            (cfg.binding && Admit(cfg, input, epoch).value.keyEpoch == epoch - 1)
  {
  }

  // ----- What is admitted, and why anything else is not -----

  /** A string that decodes to the size of the RSA modulus. */
  predicate WellFormed(entry: Option<seq<byte>>) {
    entry.Some? && |entry.value| == 256
  }

  /** Entry `i` is the first malformed one. */
  ghost predicate FirstMalformed(blinded: seq<Option<seq<byte>>>, i: nat) {
    i < |blinded| && !WellFormed(blinded[i]) && forall j :: 0 <= j < i ==> WellFormed(blinded[j])
  }

  /** The bytes of every entry. */
  function Bytes(blinded: seq<Option<seq<byte>>>): seq<seq<byte>> {
    seq(|blinded|, i requires 0 <= i < |blinded| => if blinded[i].Some? then blinded[i].value else [])
  }

  /** The hash presented is the 32-byte hash of this very batch in epoch `e`. */
  ghost predicate BoundTo(cfg: Config, input: Input, e: int) {
    |cfg.hash(Preimage(e, Bytes(input.blinded)))| == 32 && input.clientDataHash == Some(cfg.hash(Preimage(e, Bytes(input.blinded))))
  }

  lemma {:induction false} DecodesFormed(blinded: seq<Option<seq<byte>>>)
    requires forall i :: 0 <= i < |blinded| ==> WellFormed(blinded[i])
    ensures DecodeAll(blinded) == Ok(Bytes(blinded)) && AllFullSize(Bytes(blinded))
  {
    DecodeMessages(Bytes(blinded));
    assert AsInput(Bytes(blinded)) == blinded;
  }

  lemma {:induction false} StopsAtMalformed(blinded: seq<Option<seq<byte>>>, i: nat)
    requires FirstMalformed(blinded, i)
    ensures DecodeAll(blinded) == Err(if blinded[i].None? then BadBlindedType else BadBlindedLength)
  {
    if i > 0 {
      assert WellFormed(blinded[0]);
      StopsAtMalformed(blinded[1..], i - 1);
    }
  }

  lemma {:induction false} MalformedHasFirst(blinded: seq<Option<seq<byte>>>, n: nat) returns (i: nat)
    requires n < |blinded| && !WellFormed(blinded[n])
    ensures i <= n && FirstMalformed(blinded, i)
  {
    i := 0;
    while WellFormed(blinded[i])
      invariant i <= n && forall j :: 0 <= j < i ==> WellFormed(blinded[j])
      decreases n - i
    {
      i := i + 1;
    }
  }

  /**
   A batch is admitted if and only if it has 1 to `maxTokens` entries, each a message of 256 bytes, and,
   with binding on, the hash presented is that of these messages in the current or the previous epoch; it is
   then signed as it is, for the epoch that matched. Each complaint has its own condition, and
   the first malformed entry decides between the two about entries.
   */
  lemma {:induction false} AdmitsExactly(cfg: Config, input: Input, epoch: int)
    ensures var r, b := Admit(cfg, input, epoch), input.blinded;
            var sized, formed := 1 <= |b| <= cfg.maxTokens, forall i :: 0 <= i < |b| ==> WellFormed(b[i]);
            var bound := BoundTo(cfg, input, epoch) || BoundTo(cfg, input, epoch - 1);
            && (r.Ok? <==> sized && formed && (cfg.binding ==> bound))
            && (r.Ok? ==> r.value == Ticket(if cfg.binding && !BoundTo(cfg, input, epoch) then epoch - 1 else epoch, Bytes(b)))
            && (r == Err(BadBatchSize) <==> !sized)
            && (r == Err(BadBlindedType) <==> sized && exists i: nat :: FirstMalformed(b, i) && b[i].None?)
            && (r == Err(BadBlindedLength) <==> sized && exists i: nat :: FirstMalformed(b, i) && b[i].Some?)
            && (r == Err(BindingFailed) <==> sized && formed && cfg.binding && !bound)
  {
    var b := input.blinded;
    if n :| 0 <= n < |b| && !WellFormed(b[n]) {
      var i := MalformedHasFirst(b, n);
      StopsAtMalformed(b, i);
    } else {
      DecodesFormed(b);
    }
  }

  // ----- The issuing system -----

  /** A 200 response: `count` blind signatures under the key of epoch `keyEpoch`. */
  datatype Response = Response(id: CommitId, keyEpoch: int, count: int)

  datatype IssueState = IssueState(base: State, keyEpochs: map<CommitId, int>, responses: seq<Response>)

  datatype IssueEvent =
    | Submit(id: CommitId, req: Request, input: Input)
    | Protocol(e: Event)
    | Respond(id: CommitId)

  ghost predicate IssueEnabled(cfg: Config, s: IssueState, e: IssueEvent)
    requires |s.base.versions| > 0
  {
    match e
    case Submit(id, req, input) =>
      && Enabled(s.base, Begin(id, req))
      && Admit(cfg, input, req.epoch).Ok?
      && req.count == |Admit(cfg, input, req.epoch).value.messages|
    case Protocol(pe) => !pe.Begin? && Enabled(s.base, pe)
    case Respond(id) =>
      && id in s.base.calls && s.base.calls[id].phase == Done(Reserved) && id in s.keyEpochs
      && forall i :: 0 <= i < |s.responses| ==> s.responses[i].id != id
  }

  ghost function IssueApply(cfg: Config, quota: nat, s: IssueState, e: IssueEvent): IssueState
    requires |s.base.versions| > 0 && IssueEnabled(cfg, s, e)
  {
    match e
    case Submit(id, req, input) =>
      s.(base := Apply(quota, s.base, Begin(id, req)), keyEpochs := s.keyEpochs[id := Admit(cfg, input, req.epoch).value.keyEpoch])
    case Protocol(pe) => s.(base := Apply(quota, s.base, pe))
    case Respond(id) =>
      s.(responses := s.responses + [Response(id, s.keyEpochs[id], s.base.calls[id].req.count)])
  }

  ghost predicate IssueRun(cfg: Config, quota: nat, states: seq<IssueState>, events: seq<IssueEvent>) {
    && |states| == |events| + 1
    && Init(states[0].base) && states[0].keyEpochs == map[] && states[0].responses == []
    && forall i {:trigger events[i]} :: 0 <= i < |events| ==>
         |states[i].base.versions| > 0 && IssueEnabled(cfg, states[i], events[i])
         && states[i + 1] == IssueApply(cfg, quota, states[i], events[i])
  }

  /** Blind signatures handed out under the key of epoch `keyEpoch`. */
  ghost function Issued(responses: seq<Response>, keyEpoch: int): int {
    if responses == [] then 0
    else Issued(responses[..|responses| - 1], keyEpoch)
         + if responses[|responses| - 1].keyEpoch == keyEpoch then responses[|responses| - 1].count else 0
  }

  ghost predicate LabelOk(cfg: Config, keyEpoch: int, epoch: int) {
    keyEpoch == epoch || (cfg.binding && keyEpoch == epoch - 1)
  }

  /** Every response is backed by its own commit. */
  ghost predicate Backed(cfg: Config, responses: seq<Response>, log: seq<Commit>) {
    && (forall i, j :: 0 <= i < j < |responses| ==> responses[i].id != responses[j].id)
    && (forall i :: 0 <= i < |responses| ==> BackedBy(cfg, responses[i], log))
  }

  ghost predicate BackedBy(cfg: Config, r: Response, log: seq<Commit>) {
    exists k :: 0 <= k < |log| && Backs(cfg, log[k], r)
  }

  ghost predicate Backs(cfg: Config, c: Commit, r: Response) {
    c.id == r.id && c.req.count == r.count && LabelOk(cfg, r.keyEpoch, c.req.epoch)
  }

  ghost predicate IssueInv(cfg: Config, quota: nat, s: IssueState) {
    && Inv(quota, s.base)
    && s.keyEpochs.Keys == s.base.calls.Keys
    && (forall id :: id in s.base.calls ==> LabelOk(cfg, s.keyEpochs[id], s.base.calls[id].req.epoch))
    && Backed(cfg, s.responses, s.base.log)
  }

  /** Steps only ever extend the log, and never change a call's request. */
  lemma LogGrows(quota: nat, s: State, e: Event)
    requires |s.versions| > 0 && Enabled(s, e)
    ensures s.log <= Apply(quota, s, e).log
    ensures Apply(quota, s, e).calls.Keys == s.calls.Keys + {e.id}
    ensures forall id :: id in s.calls ==> Apply(quota, s, e).calls[id].req == s.calls[id].req
    ensures e.Begin? ==> Apply(quota, s, e).calls[e.id].req == e.req
  {
  }

  lemma BackedGrows(cfg: Config, responses: seq<Response>, log: seq<Commit>, longer: seq<Commit>)
    requires Backed(cfg, responses, log) && log <= longer
    ensures Backed(cfg, responses, longer)
  {
  }

  /** A call that answered ok backs a response. */
  lemma ReservedBacks(cfg: Config, quota: nat, s: IssueState, id: CommitId)
    requires IssueInv(cfg, quota, s)
    requires id in s.base.calls && s.base.calls[id].phase == Done(Reserved)
    ensures BackedBy(cfg, Response(id, s.keyEpochs[id], s.base.calls[id].req.count), s.base.log)
  {
  }

  lemma BaseStepKeepsInv(cfg: Config, quota: nat, s: IssueState, e: Event, keyEpochs: map<CommitId, int>)
    requires IssueInv(cfg, quota, s) && Enabled(s.base, e)
    requires keyEpochs.Keys == s.keyEpochs.Keys + {e.id}
    requires forall id :: id in s.keyEpochs ==> keyEpochs[id] == s.keyEpochs[id]
    requires e.id in s.base.calls || (e.Begin? && LabelOk(cfg, keyEpochs[e.id], e.req.epoch))
    ensures IssueInv(cfg, quota, s.(base := Apply(quota, s.base, e), keyEpochs := keyEpochs))
  {
    StepKeepsInv(quota, s.base, e);
    LogGrows(quota, s.base, e);
    BackedGrows(cfg, s.responses, s.base.log, Apply(quota, s.base, e).log);
  }

  lemma IssueStepKeepsInv(cfg: Config, quota: nat, s: IssueState, e: IssueEvent)
    requires IssueInv(cfg, quota, s) && IssueEnabled(cfg, s, e)
    ensures IssueInv(cfg, quota, IssueApply(cfg, quota, s, e))
  {
    match e
    case Submit(id, req, input) =>
      LabelIsRecent(cfg, input, req.epoch);
      BaseStepKeepsInv(cfg, quota, s, Begin(id, req), s.keyEpochs[id := Admit(cfg, input, req.epoch).value.keyEpoch]);
    case Protocol(pe) =>
      BaseStepKeepsInv(cfg, quota, s, pe, s.keyEpochs);
    case Respond(id) =>
      ReservedBacks(cfg, quota, s, id);
  }

  lemma {:induction false} IssueRunKeepsInv(cfg: Config, quota: nat, states: seq<IssueState>, events: seq<IssueEvent>, n: nat)
    requires IssueRun(cfg, quota, states, events) && n < |states|
    ensures IssueInv(cfg, quota, states[n])
  {
    if n > 0 {
      IssueRunKeepsInv(cfg, quota, states, events, n - 1);
      IssueStepKeepsInv(cfg, quota, states[n - 1], events[n - 1]);
    }
  }

  // ----- Every response answers one batch -----

  /** Event `e` made call `id`, which is signed for the epoch its batch was admitted to. */
  ghost predicate Makes(cfg: Config, s: IssueState, e: IssueEvent, id: CommitId) {
    && e.Submit? && e.id == id && id in s.base.calls && id in s.keyEpochs && s.base.calls[id].req == e.req
    && Admit(cfg, e.input, e.req.epoch).Ok?
    && s.keyEpochs[id] == Admit(cfg, e.input, e.req.epoch).value.keyEpoch
    && e.req.count == |Admit(cfg, e.input, e.req.epoch).value.messages|
  }

  ghost predicate Made(cfg: Config, s: IssueState, events: seq<IssueEvent>, id: CommitId) {
    exists k :: 0 <= k < |events| && Makes(cfg, s, events[k], id)
  }

  ghost predicate Delivers(s: IssueState, r: Response) {
    r.id in s.base.calls && r.id in s.keyEpochs && r.keyEpoch == s.keyEpochs[r.id] && r.count == s.base.calls[r.id].req.count
  }

  ghost predicate Matched(cfg: Config, s: IssueState, events: seq<IssueEvent>) {
    && (forall id {:trigger s.base.calls[id]} :: id in s.base.calls ==> Made(cfg, s, events, id))
    && (forall i :: 0 <= i < |s.responses| ==> Delivers(s, s.responses[i]))
  }

  /** Every call has a signing epoch. */
  ghost predicate Labelled(s: IssueState) {
    |s.base.versions| > 0 && s.keyEpochs.Keys == s.base.calls.Keys
  }

  /** What is there before a turn is there after it: requests and signing epochs of calls. */
  lemma CallsKeepTickets(cfg: Config, quota: nat, s: IssueState, e: IssueEvent, id: CommitId)
    requires Labelled(s) && IssueEnabled(cfg, s, e) && id in s.base.calls
    ensures var t := IssueApply(cfg, quota, s, e);
            && id in t.base.calls && t.base.calls[id].req == s.base.calls[id].req
            && id in t.keyEpochs && t.keyEpochs[id] == s.keyEpochs[id]
  {
    match e
    case Submit(added, req, input) => LogGrows(quota, s.base, Begin(added, req));
    case Protocol(pe) => LogGrows(quota, s.base, pe);
    case Respond(_) =>
  }

  lemma StepMakes(cfg: Config, quota: nat, s: IssueState, events: seq<IssueEvent>, e: IssueEvent, id: CommitId)
    requires Labelled(s) && IssueEnabled(cfg, s, e) && id in IssueApply(cfg, quota, s, e).base.calls
    requires id in s.base.calls ==> Made(cfg, s, events, id)
    ensures Made(cfg, IssueApply(cfg, quota, s, e), events + [e], id)
  {
    var t, all := IssueApply(cfg, quota, s, e), events + [e];
    if id in s.base.calls {
      CallsKeepTickets(cfg, quota, s, e, id);
      var k :| 0 <= k < |events| && Makes(cfg, s, events[k], id);
      assert Makes(cfg, t, all[k], id);
    } else {
      assert e.Submit? && Makes(cfg, t, all[|events|], id);
    }
  }

  lemma StepDelivers(cfg: Config, quota: nat, s: IssueState, e: IssueEvent, i: nat)
    requires Labelled(s) && IssueEnabled(cfg, s, e) && i < |IssueApply(cfg, quota, s, e).responses|
    requires i < |s.responses| ==> Delivers(s, s.responses[i])
    ensures Delivers(IssueApply(cfg, quota, s, e), IssueApply(cfg, quota, s, e).responses[i])
  {
    if i < |s.responses| { CallsKeepTickets(cfg, quota, s, e, s.responses[i].id); }
  }

  lemma StepKeepsMatched(cfg: Config, quota: nat, s: IssueState, events: seq<IssueEvent>, e: IssueEvent)
    requires Labelled(s) && IssueEnabled(cfg, s, e) && Matched(cfg, s, events)
    ensures Matched(cfg, IssueApply(cfg, quota, s, e), events + [e])
  {
    var t := IssueApply(cfg, quota, s, e);
    forall id | id in t.base.calls ensures Made(cfg, t, events + [e], id) { StepMakes(cfg, quota, s, events, e, id); }
    forall i | 0 <= i < |t.responses| ensures Delivers(t, t.responses[i]) { StepDelivers(cfg, quota, s, e, i); }
  }

  lemma TurnIsLabelled(cfg: Config, quota: nat, states: seq<IssueState>, events: seq<IssueEvent>, n: nat)
    requires IssueRun(cfg, quota, states, events) && n < |states|
    ensures Labelled(states[n])
    ensures forall i, j :: 0 <= i < j < |states[n].responses| ==> states[n].responses[i].id != states[n].responses[j].id
  {
    IssueRunKeepsInv(cfg, quota, states, events, n);
  }

  lemma TurnKeepsMatched(cfg: Config, quota: nat, states: seq<IssueState>, events: seq<IssueEvent>, n: nat, before: seq<IssueEvent>)
    requires IssueRun(cfg, quota, states, events) && n < |events| && Labelled(states[n])
    requires Matched(cfg, states[n], before)
    ensures Matched(cfg, states[n + 1], before + [events[n]])
  {
    StepKeepsMatched(cfg, quota, states[n], before, events[n]);
  }

  lemma {:induction false} RunKeepsMatched(cfg: Config, quota: nat, states: seq<IssueState>, events: seq<IssueEvent>, n: nat)
    requires IssueRun(cfg, quota, states, events) && n < |states|
    ensures Matched(cfg, states[n], events[..n])
  {
    if n > 0 {
      RunKeepsMatched(cfg, quota, states, events, n - 1);
      TurnIsLabelled(cfg, quota, states, events, n - 1);
      assert events[..n] == events[..n - 1] + [events[n - 1]];
      TurnKeepsMatched(cfg, quota, states, events, n - 1, events[..n - 1]);
    }
  }

  /**
   In any run, a response answers one submitted batch, and no other response answers it: it carries one
   signature for each message presented, under the key of the epoch the batch was admitted to, and so never
   more than `maxTokens`.
   */
  lemma ResponseAnswersBatch(cfg: Config, quota: nat, states: seq<IssueState>, events: seq<IssueEvent>, n: nat, i: nat)
    returns (k: nat)
    requires IssueRun(cfg, quota, states, events) && n < |states| && i < |states[n].responses|
    ensures k < n && events[k].Submit? && events[k].id == states[n].responses[i].id
    ensures var r, input, epoch := states[n].responses[i], events[k].input, events[k].req.epoch;
            && Admit(cfg, input, epoch).Ok? && r.keyEpoch == Admit(cfg, input, epoch).value.keyEpoch
            && r.count == |input.blinded| && 1 <= r.count <= cfg.maxTokens
    ensures forall j :: 0 <= j < |states[n].responses| && j != i ==> states[n].responses[j].id != states[n].responses[i].id
  {
    RunKeepsMatched(cfg, quota, states, events, n);
    TurnIsLabelled(cfg, quota, states, events, n);
    var s := states[n];
    assert Delivers(s, s.responses[i]);
    k :| 0 <= k < |events[..n]| && Makes(cfg, s, events[..n][k], s.responses[i].id);
    AdmitsExactly(cfg, events[k].input, events[k].req.epoch);
  }

  // ----- Counting signatures against commits -----

  ghost function Without(log: seq<Commit>, k: nat): seq<Commit>
    requires k < |log|
  {
    log[..k] + log[k + 1..]
  }

  lemma {:induction false} ChargedWithout(log: seq<Commit>, k: nat, epoch: int)
    requires k < |log|
    ensures Charged(log, epoch) == Charged(Without(log, k), epoch) + if log[k].req.epoch == epoch then log[k].req.count else 0
    decreases |log|
  {
    var n := |log| - 1;
    if k == n {
      assert Without(log, k) == log[..n];
    } else {
      ChargedWithout(log[..n], k, epoch);
      assert Without(log, k)[..n - 1] == Without(log[..n], k);
      assert Without(log, k)[n - 1] == log[n];
    }
  }

  /** Responses under one keyEpoch are paid for by commits in that epoch and, with binding, the next. */
  lemma {:induction false} IssuedWithinCharged(cfg: Config, responses: seq<Response>, log: seq<Commit>, keyEpoch: int)
    requires Backed(cfg, responses, log)
    requires forall c :: c in log ==> ValidRequest(c.req)
    ensures Issued(responses, keyEpoch) <= Charged(log, keyEpoch) + if cfg.binding then Charged(log, keyEpoch + 1) else 0
    decreases |responses|
  {
    if responses == [] {
      ChargedNonNegative(log, keyEpoch);
      ChargedNonNegative(log, keyEpoch + 1);
    } else {
      var n := |responses| - 1;
      assert BackedBy(cfg, responses[n], log);
      var k :| 0 <= k < |log| && Backs(cfg, log[k], responses[n]);
      assert log[k] in log;
      OthersBacked(cfg, responses, log, k);
      IssuedWithinCharged(cfg, responses[..n], Without(log, k), keyEpoch);
      ChargedWithout(log, k, keyEpoch);
      ChargedWithout(log, k, keyEpoch + 1);
    }
  }

  /** The commit behind the last response backs no other one. */
  lemma OthersBacked(cfg: Config, responses: seq<Response>, log: seq<Commit>, k: nat)
    requires Backed(cfg, responses, log) && responses != []
    requires k < |log| && Backs(cfg, log[k], responses[|responses| - 1])
    ensures Backed(cfg, responses[..|responses| - 1], Without(log, k))
    ensures forall c :: c in Without(log, k) ==> c in log
  {
    forall i | 0 <= i < |responses| - 1 ensures BackedBy(cfg, responses[i], Without(log, k)) {
      assert BackedBy(cfg, responses[i], log);
      var m :| 0 <= m < |log| && Backs(cfg, log[m], responses[i]);
      assert Backs(cfg, Without(log, k)[if m < k then m else m - 1], responses[i]);
    }
  }

  /**
   The blind signatures one device ever receives under the key of one epoch number at most twice
   the quota when payload binding is on, because each batch is charged to that epoch or to the
   next, and at most the quota when it is off. This holds in every run of any number of replicas
   with lost acknowledgements, late writes and failed responses.
   */
  lemma SignaturesPerEpochBounded(cfg: Config, quota: nat, states: seq<IssueState>, events: seq<IssueEvent>, n: nat, keyEpoch: int)
    requires quota > 0
    requires IssueRun(cfg, quota, states, events) && n < |states|
    ensures Issued(states[n].responses, keyEpoch) <= if cfg.binding then 2 * quota else quota
  {
    IssueRunKeepsInv(cfg, quota, states, events, n);
    var s := states[n];
    InvGivesChain(quota, s.base);
    forall c | c in s.base.log ensures ValidRequest(c.req) {
      var i :| 0 <= i < |s.base.log| && s.base.log[i] == c;
      assert Link(quota, Values(s.base)[i], s.base.log[i], Values(s.base)[i + 1]);
    }
    IssuedWithinCharged(cfg, s.responses, s.base.log, keyEpoch);
    QuotaBound(quota, Values(s.base), s.base.log, keyEpoch);
    QuotaBound(quota, Values(s.base), s.base.log, keyEpoch + 1);
  }

  // ----- Progress, and the bound is reached -----

  lemma ExtendRun(cfg: Config, quota: nat, states: seq<IssueState>, events: seq<IssueEvent>, e: IssueEvent)
    returns (longer: seq<IssueState>, more: seq<IssueEvent>)
    requires IssueRun(cfg, quota, states, events)
    requires var s := states[|events|]; |s.base.versions| > 0 && IssueEnabled(cfg, s, e)
    ensures IssueRun(cfg, quota, longer, more) && more == events + [e]
    ensures longer[|more|] == IssueApply(cfg, quota, states[|events|], e)
  {
    longer, more := states + [IssueApply(cfg, quota, states[|events|], e)], events + [e];
    forall i | 0 <= i < |more|
      ensures |longer[i].base.versions| > 0 && IssueEnabled(cfg, longer[i], more[i])
              && longer[i + 1] == IssueApply(cfg, quota, longer[i], more[i])
    {
      if i < |events| { assert longer[i] == states[i] && more[i] == events[i]; }
    }
  }

  lemma CommittedIdsAreCalls(cfg: Config, quota: nat, s: IssueState, id: CommitId)
    requires IssueInv(cfg, quota, s) && id !in s.base.calls
    ensures forall i :: 0 <= i < |s.responses| ==> s.responses[i].id != id
  {
  }

  /**
   Progress: after any run, a fresh admitted request that the current row would let write is
   answered with its signatures once it is left undisturbed for five steps.
   */
  lemma Served(cfg: Config, quota: nat, states: seq<IssueState>, events: seq<IssueEvent>,
               id: CommitId, req: Request, input: Input, etag: nat)
    returns (longer: seq<IssueState>, more: seq<IssueEvent>)
    requires IssueRun(cfg, quota, states, events)
    requires |states[|events|].base.versions| > 0 && IssueEnabled(cfg, states[|events|], Submit(id, req, input))
    requires ValidRequest(req) && Decide(quota, ValueOf(Current(states[|events|].base)), id, req).Write?
    requires forall v :: v in states[|events|].base.versions && v.Some? ==> v.value.etag != etag
    ensures IssueRun(cfg, quota, longer, more)
    ensures more == events + [Submit(id, req, input)] + [Protocol(Read(id))] + [Protocol(Land(id, etag))] + [Protocol(Ack(id))] + [Respond(id)]
    ensures var s, t := states[|events|], longer[|more|];
            && t.responses == s.responses + [Response(id, Admit(cfg, input, req.epoch).value.keyEpoch, req.count)]
            && t.base.log == s.base.log + [Commit(id, req)]
            && t.base.versions == s.base.versions
                 + [Some(Row(etag, Decide(quota, ValueOf(Current(s.base)), id, req).value))]
            && t.base.calls.Keys == s.base.calls.Keys + {id}
  {
    IssueRunKeepsInv(cfg, quota, states, events, |events|);
    CommittedIdsAreCalls(cfg, quota, states[|events|], id);
    longer, more := Committed(cfg, quota, states, events, id, req, input, etag);
    longer, more := ExtendRun(cfg, quota, longer, more, Protocol(Ack(id)));
    longer, more := ExtendRun(cfg, quota, longer, more, Respond(id));
  }

  /** The first three of those steps: the write lands. */
  lemma Committed(cfg: Config, quota: nat, states: seq<IssueState>, events: seq<IssueEvent>,
                  id: CommitId, req: Request, input: Input, etag: nat)
    returns (longer: seq<IssueState>, more: seq<IssueEvent>)
    requires IssueRun(cfg, quota, states, events)
    requires |states[|events|].base.versions| > 0 && IssueEnabled(cfg, states[|events|], Submit(id, req, input))
    requires ValidRequest(req) && Decide(quota, ValueOf(Current(states[|events|].base)), id, req).Write?
    requires forall v :: v in states[|events|].base.versions && v.Some? ==> v.value.etag != etag
    ensures IssueRun(cfg, quota, longer, more)
    ensures more == events + [Submit(id, req, input)] + [Protocol(Read(id))] + [Protocol(Land(id, etag))]
    ensures var s, t := states[|events|], longer[|more|];
            && t.responses == s.responses && t.base.log == s.base.log + [Commit(id, req)]
            && t.keyEpochs == s.keyEpochs[id := Admit(cfg, input, req.epoch).value.keyEpoch]
            && t.base.versions == s.base.versions
                 + [Some(Row(etag, Decide(quota, ValueOf(Current(s.base)), id, req).value))]
            && t.base.calls.Keys == s.base.calls.Keys + {id}
            && t.base.calls[id].req == req && t.base.calls[id].phase.Writing? && t.base.calls[id].write.Landed?
  {
    var c;
    longer, more, c := Sent(cfg, quota, states, events, id, req, input);
    longer, more := ExtendRun(cfg, quota, longer, more, Protocol(Land(id, etag)));
  }

  /** The first two: the write is sent. */
  lemma Sent(cfg: Config, quota: nat, states: seq<IssueState>, events: seq<IssueEvent>,
             id: CommitId, req: Request, input: Input)
    returns (longer: seq<IssueState>, more: seq<IssueEvent>, c: Call)
    requires IssueRun(cfg, quota, states, events)
    requires |states[|events|].base.versions| > 0 && IssueEnabled(cfg, states[|events|], Submit(id, req, input))
    requires ValidRequest(req) && Decide(quota, ValueOf(Current(states[|events|].base)), id, req).Write?
    ensures IssueRun(cfg, quota, longer, more)
    ensures more == events + [Submit(id, req, input)] + [Protocol(Read(id))]
    ensures var s := states[|events|];
            && longer[|more|] == IssueState(s.base.(calls := s.base.calls[id := c]),
                                            s.keyEpochs[id := Admit(cfg, input, req.epoch).value.keyEpoch], s.responses)
            && c.req == req && c.phase.Writing? && c.write.Pending?
            && c.write.w.expected == EtagOf(Current(s.base))
            && c.write.w.value == Decide(quota, ValueOf(Current(s.base)), id, req).value
  {
    longer, more := ExtendRun(cfg, quota, states, events, Submit(id, req, input));
    longer, more := ExtendRun(cfg, quota, longer, more, Protocol(Read(id)));
    c := longer[|more|].base.calls[id];
  }

  // ----- What a device asks for -----

  /** Messages as they arrive. */
  function AsInput(messages: seq<seq<byte>>): seq<Option<seq<byte>>> {
    seq(|messages|, i requires 0 <= i < |messages| => Some(messages[i]))
  }

  lemma {:induction false} DecodeMessages(messages: seq<seq<byte>>)
    requires AllFullSize(messages)
    ensures DecodeAll(AsInput(messages)) == Ok(messages)
  {
    if messages != [] {
      DecodeMessages(messages[1..]);
      assert AsInput(messages)[1..] == AsInput(messages[1..]);
      assert [messages[0]] + messages[1..] == messages;
    }
  }

  /** Everything presented for signing in a run, in order. */
  ghost function Presented(events: seq<IssueEvent>): seq<Option<seq<byte>>> {
    if events == [] then []
    else Presented(events[..|events| - 1]) + if events[|events| - 1].Submit? then events[|events| - 1].input.blinded else []
  }

  lemma {:induction false} PresentedSnoc(events: seq<IssueEvent>, e: IssueEvent)
    ensures Presented(events + [e]) == Presented(events) + if e.Submit? then e.input.blinded else []
  {
    assert (events + [e])[..|events|] == events;
  }

  /** The hash has 32 bytes and does not collide between the two epochs for this batch. */
  ghost predicate HashTellsEpochs(cfg: Config, epoch: nat, batch: seq<seq<byte>>) {
    |cfg.hash(Preimage(epoch, batch))| == 32 && NoCollision(cfg.hash, Preimage(epoch, batch), Preimage(epoch + 1, batch))
  }

  /** A batch bound to an epoch is admitted for it in that epoch and in the next. */
  lemma AdmittedInBothEpochs(cfg: Config, epoch: nat, batch: seq<seq<byte>>) returns (input: Input)
    requires cfg.binding && 1 <= |batch| <= cfg.maxTokens && AllFullSize(batch) && HashTellsEpochs(cfg, epoch, batch)
    ensures input.blinded == AsInput(batch)
    ensures Admit(cfg, input, epoch) == Ok(Ticket(epoch, batch))
    ensures Admit(cfg, input, epoch + 1) == Ok(Ticket(epoch, batch))
  {
    input := Input(Some(cfg.hash(Preimage(epoch, batch))), AsInput(batch));
    DecodeMessages(batch);
    if Preimage(epoch, batch) == Preimage(epoch + 1, batch) { PreimageInjective(epoch, batch, epoch + 1, batch); }
  }

  /** The counter a device signs next: 32 bits wide, and 0 in its one attestation. */
  function NextCounter(row: Option<Record>): int {
    if row.None? then 0 else row.value.signCount + 1
  }

  const COUNTERS := 0x1_0000_0000

  /** First an attestation, from then on assertions by the registered key. */
  function NextRequest(row: Option<Record>, pem: string, now: int, count: int): Request {
    Request(if row.None? then Attestation else Assertion, pem, NextCounter(row), now, count)
  }

  /** From commit `from` on, every committed request is what the device asks next, given the row before it. */
  ghost predicate Orderly(s: State, pem: string, from: nat) {
    && |s.versions| == |s.log| + 1
    && forall i {:trigger s.log[i]} :: from <= i < |s.log| ==>
         var row, req := ValueOf(s.versions[i]), s.log[i].req;
         req == NextRequest(row, pem, req.epoch, req.count) && req.signCount < COUNTERS
  }

  /** `next` is unused as a commit id and as an ETag. */
  ghost predicate Unused(s: State, next: nat) {
    && |s.versions| > 0
    && (forall id :: id in s.calls ==> id < next)
    && (forall v :: v in s.versions && v.Some? ==> v.value.etag < next && v.value.value.commitId < next)
  }

  /** The device's row has room for `left` more tokens in epoch `now`, which may be the one before its newest. */
  ghost predicate HasRoom(quota: nat, pem: string, row: Option<Record>, now: nat, left: nat) {
    && left <= quota && Used(row, now) == quota - left
    && (row.Some? ==> Checked(row.value) && row.value.pem == pem && row.value.latestEpoch <= now + 1)
  }

  /** The newest epoch a row has seen. */
  function Newest(row: Option<Record>): int {
    if row.None? then 0 else row.value.latestEpoch
  }

  /** The device's next request, for at most the tokens left, is written and leaves the rest. */
  lemma RoomIsUsed(quota: nat, pem: string, row: Option<Record>, id: CommitId, now: nat, left: nat, count: nat) returns (v: Record)
    requires HasRoom(quota, pem, row, now, left) && 1 <= count <= left && |pem| <= MAX_PEM_LENGTH
    requires SafeNat(quota) && SafeNat(now) && NextCounter(row) < COUNTERS
    ensures ValidRequest(NextRequest(row, pem, now, count))
    ensures Decide(quota, row, id, NextRequest(row, pem, now, count)) == Write(v)
    ensures v.commitId == id && HasRoom(quota, pem, Some(v), now, left - count) && NextCounter(Some(v)) == NextCounter(row) + 1
    ensures v.latestEpoch == Max(now, Newest(row))
  {
    var c := Commit(id, NextRequest(row, pem, now, count));
    v := Decide(quota, row, id, c.req).value;
    WriteEffect(quota, row, c, Some(v));
  }

  lemma {:induction false} IssuedSnoc(responses: seq<Response>, r: Response, keyEpoch: int)
    ensures Issued(responses + [r], keyEpoch) == Issued(responses, keyEpoch) + if r.keyEpoch == keyEpoch then r.count else 0
  {
    assert (responses + [r])[..|responses|] == responses;
  }

  /** A fresh request for a batch that fits can be submitted, and would be written. */
  lemma BatchIsReady(cfg: Config, quota: nat, pem: string, s: IssueState, epoch: nat, now: nat, batch: seq<seq<byte>>,
                     left: nat, next: nat)
    returns (req: Request, input: Input, v: Record)
    requires cfg.binding && 1 <= |batch| <= left && |batch| <= cfg.maxTokens && SafeNat(quota) && SafeNat(now)
    requires |pem| <= MAX_PEM_LENGTH && AllFullSize(batch) && epoch <= now <= epoch + 1 && HashTellsEpochs(cfg, epoch, batch)
    requires Unused(s.base, next) && HasRoom(quota, pem, ValueOf(Current(s.base)), now, left)
    requires NextCounter(ValueOf(Current(s.base))) < COUNTERS
    ensures req == NextRequest(ValueOf(Current(s.base)), pem, now, |batch|) && ValidRequest(req) && input.blinded == AsInput(batch)
    ensures IssueEnabled(cfg, s, Submit(next, req, input)) && Admit(cfg, input, now).value.keyEpoch == epoch
    ensures Decide(quota, ValueOf(Current(s.base)), next, req) == Write(v) && v.commitId == next
    ensures HasRoom(quota, pem, Some(v), now, left - |batch|) && NextCounter(Some(v)) == req.signCount + 1
    ensures v.latestEpoch == Max(now, Newest(ValueOf(Current(s.base))))
  {
    req := NextRequest(ValueOf(Current(s.base)), pem, now, |batch|);
    input := AdmittedInBothEpochs(cfg, epoch, batch);
    CanSubmit(cfg, s, next, req, input);
    v := RoomIsUsed(quota, pem, ValueOf(Current(s.base)), next, now, left, |batch|);
  }

  lemma CanSubmit(cfg: Config, s: IssueState, next: nat, req: Request, input: Input)
    requires Unused(s.base, next) && Admit(cfg, input, req.epoch).Ok?
    requires req.count == |Admit(cfg, input, req.epoch).value.messages|
    ensures IssueEnabled(cfg, s, Submit(next, req, input))
  {
  }

  lemma StaysUnused(s: State, t: State, next: nat, v: Record)
    requires Unused(s, next) && v.commitId == next
    requires t.versions == s.versions + [Some(Row(next, v))] && t.calls.Keys == s.calls.Keys + {next}
    ensures Unused(t, next + 1) && ValueOf(Current(t)) == Some(v)
  {
    forall id | id in t.calls ensures id < next + 1 { assert id in s.calls.Keys + {next}; }
  }

  lemma StaysOrderly(s: State, t: State, pem: string, from: nat, c: Commit, row: Option<Row>)
    requires Orderly(s, pem, from) && t.versions == s.versions + [row] && t.log == s.log + [c]
    requires c.req == NextRequest(ValueOf(Current(s)), pem, c.req.epoch, c.req.count) && c.req.signCount < COUNTERS
    ensures Orderly(t, pem, from)
  {
  }

  lemma {:induction false} PresentedBatch(events: seq<IssueEvent>, a: IssueEvent, b: IssueEvent, c: IssueEvent, d: IssueEvent, e: IssueEvent)
    requires a.Submit? && !b.Submit? && !c.Submit? && !d.Submit? && !e.Submit?
    ensures Presented(events + [a] + [b] + [c] + [d] + [e]) == Presented(events) + a.input.blinded
  {
    PresentedSnoc(events, a);
    PresentedSnoc(events + [a], b);
    PresentedSnoc(events + [a] + [b], c);
    PresentedSnoc(events + [a] + [b] + [c], d);
    PresentedSnoc(events + [a] + [b] + [c] + [d], e);
  }

  /** One more batch, bound to `epoch` and charged to `now`. */
  lemma OneBatch(cfg: Config, quota: nat, pem: string, states: seq<IssueState>, events: seq<IssueEvent>,
                 epoch: nat, now: nat, batch: seq<seq<byte>>, left: nat, next: nat, from: nat)
    returns (longer: seq<IssueState>, more: seq<IssueEvent>)
    requires cfg.binding && 1 <= |batch| <= left && |batch| <= cfg.maxTokens && SafeNat(quota) && SafeNat(now)
    requires |pem| <= MAX_PEM_LENGTH && AllFullSize(batch) && epoch <= now <= epoch + 1 && HashTellsEpochs(cfg, epoch, batch)
    requires IssueRun(cfg, quota, states, events) && Unused(states[|events|].base, next) && Orderly(states[|events|].base, pem, from)
    requires HasRoom(quota, pem, ValueOf(Current(states[|events|].base)), now, left)
    requires NextCounter(ValueOf(Current(states[|events|].base))) < COUNTERS
    ensures IssueRun(cfg, quota, longer, more) && Unused(longer[|more|].base, next + 1) && Orderly(longer[|more|].base, pem, from)
    ensures HasRoom(quota, pem, ValueOf(Current(longer[|more|].base)), now, left - |batch|)
    ensures NextCounter(ValueOf(Current(longer[|more|].base))) == NextCounter(ValueOf(Current(states[|events|].base))) + 1
    ensures Newest(ValueOf(Current(longer[|more|].base))) == Max(now, Newest(ValueOf(Current(states[|events|].base))))
    ensures Issued(longer[|more|].responses, epoch) == Issued(states[|events|].responses, epoch) + |batch|
    ensures states[|events|].base.versions <= longer[|more|].base.versions
    ensures Presented(more) == Presented(events) + AsInput(batch)
  {
    var s := states[|events|];
    var req, input, v := BatchIsReady(cfg, quota, pem, s, epoch, now, batch, left, next);
    longer, more := Served(cfg, quota, states, events, next, req, input, next);
    StaysUnused(s.base, longer[|more|].base, next, v);
    StaysOrderly(s.base, longer[|more|].base, pem, from, Commit(next, req), Some(Row(next, v)));
    IssuedSnoc(s.responses, Response(next, epoch, |batch|), epoch);
    PresentedBatch(events, Submit(next, req, input), Protocol(Read(next)), Protocol(Land(next, next)), Protocol(Ack(next)), Respond(next));
  }

  /** How many batches of at most `size` make up `count` messages. */
  function Batches(count: nat, size: nat): nat
    requires size >= 1
  {
    if count == 0 then 0 else 1 + Batches(if count <= size then 0 else count - size, size)
  }

  /** No batch that can be cut from the messages makes the hash collide between the two epochs. */
  ghost predicate HashesTellEpochs(cfg: Config, epoch: nat, messages: seq<seq<byte>>) {
    forall i, j {:trigger messages[i..j]} :: 0 <= i <= j <= |messages| ==> HashTellsEpochs(cfg, epoch, messages[i..j])
  }

  lemma HashesOfRest(cfg: Config, epoch: nat, messages: seq<seq<byte>>, n: nat)
    requires HashesTellEpochs(cfg, epoch, messages) && n <= |messages|
    ensures HashesTellEpochs(cfg, epoch, messages[..n]) && HashesTellEpochs(cfg, epoch, messages[n..])
    ensures HashTellsEpochs(cfg, epoch, messages[..n])
  {
    assert messages[0..n] == messages[..n];
    forall i, j | 0 <= i <= j <= n ensures HashTellsEpochs(cfg, epoch, messages[..n][i..j]) {
      assert messages[..n][i..j] == messages[i..j];
    }
    forall i, j | 0 <= i <= j <= |messages| - n ensures HashTellsEpochs(cfg, epoch, messages[n..][i..j]) {
      assert messages[n..][i..j] == messages[n + i..n + j];
    }
  }

  /**
   Whatever the batch size and whatever its row, a device with room for these messages in epoch `now`
   gets them all signed, in order, in batches bound to `epoch`, as long as its 32-bit counter lasts. It
   attests if it has no row and asserts with the next counter from then on.
   */
  lemma {:induction false} UsesRoom(cfg: Config, quota: nat, pem: string, states: seq<IssueState>, events: seq<IssueEvent>,
                                    epoch: nat, now: nat, messages: seq<seq<byte>>, size: nat, left: nat, next: nat, from: nat)
    returns (longer: seq<IssueState>, more: seq<IssueEvent>, unused: nat)
    requires cfg.binding && 1 <= size <= cfg.maxTokens && SafeNat(quota) && SafeNat(now) && |pem| <= MAX_PEM_LENGTH
    requires epoch <= now <= epoch + 1 && AllFullSize(messages) && HashesTellEpochs(cfg, epoch, messages) && |messages| <= left
    requires IssueRun(cfg, quota, states, events) && Unused(states[|events|].base, next) && Orderly(states[|events|].base, pem, from)
    requires HasRoom(quota, pem, ValueOf(Current(states[|events|].base)), now, left)
    requires NextCounter(ValueOf(Current(states[|events|].base))) + Batches(|messages|, size) <= COUNTERS
    ensures IssueRun(cfg, quota, longer, more) && Unused(longer[|more|].base, unused) && Orderly(longer[|more|].base, pem, from)
    ensures HasRoom(quota, pem, ValueOf(Current(longer[|more|].base)), now, left - |messages|)
    ensures NextCounter(ValueOf(Current(longer[|more|].base)))
         == NextCounter(ValueOf(Current(states[|events|].base))) + Batches(|messages|, size)
    ensures Newest(ValueOf(Current(longer[|more|].base))) <= Max(now, Newest(ValueOf(Current(states[|events|].base))))
    ensures Issued(longer[|more|].responses, epoch) == Issued(states[|events|].responses, epoch) + |messages|
    ensures states[|events|].base.versions <= longer[|more|].base.versions
    ensures Presented(more) == Presented(events) + AsInput(messages)
    decreases |messages|
  {
    longer, more, unused := states, events, next;
    if messages != [] {
      var batch, rest := CutBatch(cfg, epoch, messages, size);
      longer, more := OneBatch(cfg, quota, pem, states, events, epoch, now, batch, left, next, from);
      longer, more, unused := UsesRoom(cfg, quota, pem, longer, more, epoch, now, rest, size, left - |batch|, next + 1, from);
      Regroup(Presented(events), AsInput(batch), AsInput(rest));
    }
  }

  lemma {:induction false} Regroup(a: seq<Option<seq<byte>>>, b: seq<Option<seq<byte>>>, c: seq<Option<seq<byte>>>)
    ensures a + b + c == a + (b + c)
  {
  }

  /** The first batch and the messages that remain. */
  lemma {:induction false} CutBatch(cfg: Config, epoch: nat, messages: seq<seq<byte>>, size: nat)
    returns (batch: seq<seq<byte>>, rest: seq<seq<byte>>)
    requires messages != [] && size >= 1 && AllFullSize(messages) && HashesTellEpochs(cfg, epoch, messages)
    ensures 1 <= |batch| <= size && |batch| + |rest| == |messages| && AsInput(messages) == AsInput(batch) + AsInput(rest)
    ensures AllFullSize(batch) && AllFullSize(rest)
    ensures HashTellsEpochs(cfg, epoch, batch) && HashesTellEpochs(cfg, epoch, rest)
    ensures Batches(|messages|, size) == 1 + Batches(|rest|, size)
  {
    var count := if |messages| <= size then |messages| else size;
    batch, rest := messages[..count], messages[count..];
    HashesOfRest(cfg, epoch, messages, count);
  }

  lemma AsInputSplit(before: seq<Option<seq<byte>>>, messages: seq<seq<byte>>, n: nat)
    requires n <= |messages|
    ensures before + AsInput(messages[..n]) + AsInput(messages[n..]) == before + AsInput(messages)
  {
    assert AsInput(messages[..n]) + AsInput(messages[n..]) == AsInput(messages);
  }

  /**
   The factor two is real. For every quota, every batch size a request may have, every key and every
   2 * quota messages whose batches the device's 32-bit counter can count, there is a run without any
   fault in which the device attests once, then asserts with counters 1, 2, ..., presents exactly these
   messages in order, half of them in the next epoch with bindings to the previous one, and receives
   a signature for each of them under that previous epoch's key.
   */
  lemma TwiceQuotaIsReached(cfg: Config, quota: nat, pem: string, epoch: nat, messages: seq<seq<byte>>, size: nat)
    returns (states: seq<IssueState>, events: seq<IssueEvent>)
    requires cfg.binding && 1 <= size <= cfg.maxTokens && 1 <= quota <= MAX_SAFE_INTEGER && epoch < MAX_SAFE_INTEGER
    requires |pem| <= MAX_PEM_LENGTH && |messages| == 2 * quota && AllFullSize(messages) && HashesTellEpochs(cfg, epoch, messages)
    requires 2 * Batches(quota, size) <= COUNTERS
    ensures IssueRun(cfg, quota, states, events) && Orderly(states[|events|].base, pem, 0)
    ensures states[|events|].base.versions[0].None?
    ensures Presented(events) == AsInput(messages)
    ensures Issued(states[|events|].responses, epoch) == 2 * quota
  {
    var next;
    HashesOfRest(cfg, epoch, messages, quota);
    states, events, next := FirstHalf(cfg, quota, pem, epoch, messages[..quota], size);
    NextEpochIsFree(quota, pem, ValueOf(Current(states[|events|].base)), epoch);
    states, events, next := UsesRoom(cfg, quota, pem, states, events, epoch, epoch + 1, messages[quota..], size, quota, next, 0);
    AsInputSplit([], messages, quota);
  }

  /** A new device uses up its quota of one epoch. */
  lemma FirstHalf(cfg: Config, quota: nat, pem: string, epoch: nat, messages: seq<seq<byte>>, size: nat)
    returns (states: seq<IssueState>, events: seq<IssueEvent>, next: nat)
    requires cfg.binding && 1 <= size <= cfg.maxTokens && 1 <= quota <= MAX_SAFE_INTEGER && SafeNat(epoch)
    requires |pem| <= MAX_PEM_LENGTH && |messages| == quota && AllFullSize(messages) && HashesTellEpochs(cfg, epoch, messages)
    requires Batches(quota, size) <= COUNTERS
    ensures IssueRun(cfg, quota, states, events) && Unused(states[|events|].base, next) && Orderly(states[|events|].base, pem, 0)
    ensures HasRoom(quota, pem, ValueOf(Current(states[|events|].base)), epoch, 0)
    ensures NextCounter(ValueOf(Current(states[|events|].base))) == Batches(quota, size)
    ensures Newest(ValueOf(Current(states[|events|].base))) <= epoch
    ensures Issued(states[|events|].responses, epoch) == quota && Presented(events) == AsInput(messages)
    ensures states[|events|].base.versions[0].None?
  {
    states, events := [IssueState(State([None], [], map[]), map[], [])], [];
    states, events, next := UsesRoom(cfg, quota, pem, states, events, epoch, epoch, messages, size, quota, 1, 0);
  }

  lemma NextEpochIsFree(quota: nat, pem: string, row: Option<Record>, epoch: nat)
    requires HasRoom(quota, pem, row, epoch, 0) && Newest(row) <= epoch
    ensures HasRoom(quota, pem, row, epoch + 1, quota)
  {
  }
}
