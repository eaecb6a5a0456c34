/**
 Spend-once redemption (ohttp-relay/redemption-store.js). `azureRedemptionStore` creates one row
 per (key fingerprint, signature hash) and never changes it; a create may land late, its
 acknowledgement may be lost, and replicas may stop at any point. `memoryRedemptionStore` is the
 bounded single-process form.
 */
module Redemption {
  import opened Prelude

  type ClaimId = nat

  datatype Spend = Spend(fingerprint: string, nullifier: string)

  datatype Answer = Answered(accepted: bool) | Unavailable

  /** The create of a call, as the storage knows it. */
  datatype CreateStatus = NotSent | Pending | Landed | Rejected

  datatype Phase = Starting | Creating | ReadingBack | Done(answer: Answer)

  datatype Call = Call(spend: Spend, create: CreateStatus, phase: Phase)

  /** `rows` maps a spend to the claim that created its row. */
  datatype State = State(rows: map<Spend, ClaimId>, calls: map<ClaimId, Call>)

  datatype Event =
    | Begin(claim: ClaimId, spend: Spend)
    | TableReady(claim: ClaimId)
    | Fail(claim: ClaimId)
    | Land(claim: ClaimId)
    | Reject(claim: ClaimId)
    | Ack(claim: ClaimId)
    | Error(claim: ClaimId)
    | ReadBack(claim: ClaimId)

  predicate IsHex64(s: string) {
    |s| == 64 && forall i :: 0 <= i < |s| ==> 'a' <= s[i] <= 'f' || '0' <= s[i] <= '9'
  }

  ghost predicate Init(s: State) {
    s.calls == map[]
  }

  predicate Enabled(s: State, e: Event) {
    match e
    case Begin(claim, _) => claim !in s.calls && claim !in s.rows.Values
    case TableReady(claim) => claim in s.calls && s.calls[claim].phase.Starting?
    case Fail(claim) => claim in s.calls && (s.calls[claim].phase.Starting? || s.calls[claim].phase.ReadingBack?)
    case Land(claim) => claim in s.calls && s.calls[claim].create.Pending? && s.calls[claim].spend !in s.rows
    case Reject(claim) => claim in s.calls && s.calls[claim].create.Pending? && s.calls[claim].spend in s.rows
    case Ack(claim) => claim in s.calls && s.calls[claim].phase.Creating? && s.calls[claim].create.Landed?
    case Error(claim) => claim in s.calls && s.calls[claim].phase.Creating?
    case ReadBack(claim) => claim in s.calls && s.calls[claim].phase.ReadingBack?
  }

  function Apply(s: State, e: Event): State
    requires Enabled(s, e)
  {
    match e
    case Begin(claim, spend) =>
      s.(calls := s.calls[claim := Call(spend, NotSent,
           if IsHex64(spend.fingerprint) && IsHex64(spend.nullifier) then Starting else Done(Unavailable))])
    case TableReady(claim) => s.(calls := s.calls[claim := s.calls[claim].(create := Pending, phase := Creating)])
    case Fail(claim) => s.(calls := s.calls[claim := s.calls[claim].(phase := Done(Unavailable))])
    case Land(claim) => State(s.rows[s.calls[claim].spend := claim], s.calls[claim := s.calls[claim].(create := Landed)])
    case Reject(claim) => s.(calls := s.calls[claim := s.calls[claim].(create := Rejected)])
    case Ack(claim) => s.(calls := s.calls[claim := s.calls[claim].(phase := Done(Answered(true)))])
    case Error(claim) => s.(calls := s.calls[claim := s.calls[claim].(phase := ReadingBack)])
    case ReadBack(claim) =>
      var c := s.calls[claim];
      s.(calls := s.calls[claim := c.(phase := Done(
           if c.spend in s.rows then Answered(s.rows[c.spend] == claim) else Unavailable))])
  }

  ghost predicate Run(states: seq<State>, events: seq<Event>) {
    && |states| == |events| + 1
    && Init(states[0])
    && forall i {:trigger events[i]} :: 0 <= i < |events| ==> Enabled(states[i], events[i]) && states[i + 1] == Apply(states[i], events[i])
  }

  ghost predicate CallOk(rows: map<Spend, ClaimId>, claim: ClaimId, c: Call) {
    && (c.phase.Starting? ==> c.create.NotSent?)
    && (c.create.Landed? ==> c.spend in rows && rows[c.spend] == claim)
    && (c.create.Rejected? ==> c.spend in rows && rows[c.spend] != claim)
    && (c.phase.Done? && c.phase.answer.Answered? ==>
          c.spend in rows && (c.phase.answer.accepted <==> rows[c.spend] == claim))
  }

  /** A row that carries a call's claim is the row of that call's own spend. */
  ghost predicate Inv(s: State) {
    && (forall claim {:trigger CallOk(s.rows, claim, s.calls[claim])} :: claim in s.calls ==> CallOk(s.rows, claim, s.calls[claim]))
    && (forall k :: k in s.rows && s.rows[k] in s.calls ==> s.calls[s.rows[k]].spend == k && s.calls[s.rows[k]].create.Landed?)
  }

  /** Rows, the spend of a call, and answers, once there, stay. */
  ghost predicate Persists(s: State, t: State) {
    && (forall k {:trigger s.rows[k]} :: k in s.rows ==> k in t.rows && t.rows[k] == s.rows[k])
    && (forall c {:trigger s.calls[c]} :: c in s.calls ==> c in t.calls && t.calls[c].spend == s.calls[c].spend)
    && (forall c {:trigger s.calls[c]} :: c in s.calls && s.calls[c].phase.Done? ==> c in t.calls && t.calls[c].phase == s.calls[c].phase)
  }

  lemma StepKeepsInv(s: State, e: Event)
    requires Inv(s) && Enabled(s, e)
    ensures Inv(Apply(s, e))
  {
    var t := Apply(s, e);
    if e.claim in s.calls { assert CallOk(s.rows, e.claim, s.calls[e.claim]); }
    forall claim | claim in t.calls ensures CallOk(t.rows, claim, t.calls[claim]) {
      if claim in s.calls { assert CallOk(s.rows, claim, s.calls[claim]); }
    }
    forall k | e.Begin? && k in s.rows ensures s.rows[k] != e.claim { assert s.rows[k] in s.rows.Values; }
  }

  lemma StepPersists(s: State, e: Event)
    requires Inv(s) && Enabled(s, e)
    ensures Persists(s, Apply(s, e))
  {
    if e.claim in s.calls { assert CallOk(s.rows, e.claim, s.calls[e.claim]); }
  }

  lemma PersistsOn(s: State, t: State, u: State)
    requires Persists(s, t) && Persists(t, u)
    ensures Persists(s, u)
  {
  }

  lemma {:induction false} RunKeepsInv(states: seq<State>, events: seq<Event>, n: nat)
    requires Run(states, events) && n < |states|
    ensures Inv(states[n])
  {
    if n > 0 {
      RunKeepsInv(states, events, n - 1);
      StepKeepsInv(states[n - 1], events[n - 1]);
    }
  }

  lemma TurnPersists(states: seq<State>, events: seq<Event>, n: nat)
    requires Run(states, events) && n < |events|
    ensures Persists(states[n], states[n + 1])
  {
    RunKeepsInv(states, events, n);
    StepPersists(states[n], events[n]);
  }

  /** Rows, once created, and answers, once given, stay as they are. */
  lemma {:induction false} NothingIsUnsaid(states: seq<State>, events: seq<Event>, m: nat, n: nat)
    requires Run(states, events) && m <= n < |states|
    ensures Persists(states[m], states[n])
    decreases n - m
  {
    if m < n {
      NothingIsUnsaid(states, events, m, n - 1);
      TurnPersists(states, events, n - 1);
      PersistsOn(states[m], states[n - 1], states[n]);
    }
  }

  /**
   Spend once. In any run over any number of replicas, two calls for the same spend that both
   answered true are the same call; the answer true means the row carries the call's own claim, and
   the answer false means a row with another claim exists.
   */
  lemma SpendOnce(states: seq<State>, events: seq<Event>, n: nat, a: ClaimId, b: ClaimId)
    requires Run(states, events) && n < |states|
    requires a in states[n].calls && b in states[n].calls && states[n].calls[a].spend == states[n].calls[b].spend
    requires states[n].calls[a].phase == Done(Answered(true))
    ensures states[n].calls[a].spend in states[n].rows && states[n].rows[states[n].calls[a].spend] == a
    ensures states[n].calls[b].phase == Done(Answered(true)) ==> a == b
    ensures states[n].calls[b].phase == Done(Answered(false)) ==> a != b
  {
    RunKeepsInv(states, events, n);
    assert CallOk(states[n].rows, a, states[n].calls[a]) && CallOk(states[n].rows, b, states[n].calls[b]);
  }

  lemma FalseMeansTaken(states: seq<State>, events: seq<Event>, n: nat, claim: ClaimId)
    requires Run(states, events) && n < |states|
    requires claim in states[n].calls && states[n].calls[claim].phase == Done(Answered(false))
    ensures states[n].calls[claim].spend in states[n].rows && states[n].rows[states[n].calls[claim].spend] != claim
  {
    RunKeepsInv(states, events, n);
    assert CallOk(states[n].rows, claim, states[n].calls[claim]);
  }

  // ----- When each answer is given -----

  ghost predicate Answers(s: State, claim: ClaimId, answer: Answer) {
    claim in s.calls && s.calls[claim].phase == Done(answer)
  }

  const HEX_DIGITS := "0123456789abcdef"

  /** Both parts are 64 lower-case hexadecimal digits. */
  ghost predicate WellFormed(spend: Spend) {
    && |spend.fingerprint| == 64 && (forall i :: 0 <= i < 64 ==> spend.fingerprint[i] in HEX_DIGITS)
    && |spend.nullifier| == 64 && (forall i :: 0 <= i < 64 ==> spend.nullifier[i] in HEX_DIGITS)
  }

  lemma HexDigits(c: char)
    ensures c in HEX_DIGITS <==> 'a' <= c <= 'f' || '0' <= c <= '9'
  {
    if '0' <= c <= '9' { assert HEX_DIGITS[c as int - '0' as int] == c; }
    if 'a' <= c <= 'f' { assert HEX_DIGITS[c as int - 'a' as int + 10] == c; }
  }

  lemma WellFormedIsHex(spend: Spend)
    ensures WellFormed(spend) <==> IsHex64(spend.fingerprint) && IsHex64(spend.nullifier)
  {
    forall c ensures c in HEX_DIGITS <==> 'a' <= c <= 'f' || '0' <= c <= '9' { HexDigits(c); }
  }

  /** Another call holds the row of this call's spend. */
  ghost predicate TakenByOther(s: State, claim: ClaimId) {
    claim in s.calls && s.calls[claim].spend in s.rows && s.rows[s.calls[claim].spend] != claim
  }

  /**
   The read-back, in any run: it answers true exactly when the call's own create has landed, false
   exactly when another call holds the row, and is unavailable exactly when there is no row.
   */
  lemma ReadBackAnswers(states: seq<State>, events: seq<Event>, n: nat, claim: ClaimId)
    requires Run(states, events) && n < |events| && events[n] == ReadBack(claim)
    ensures claim in states[n].calls
    ensures Answers(states[n + 1], claim, Answered(true)) <==> states[n].calls[claim].create.Landed?
    ensures Answers(states[n + 1], claim, Answered(false)) <==> TakenByOther(states[n], claim)
    ensures Answers(states[n + 1], claim, Unavailable) <==> states[n].calls[claim].spend !in states[n].rows
  {
    RunKeepsInv(states, events, n);
    assert CallOk(states[n].rows, claim, states[n].calls[claim]);
  }

  /**
   The turn in which an answer is given. A call is honoured in a turn if and only if its create is
   acknowledged or its read-back finds that it has landed; it is turned away if and only if its read-back
   finds another claim; and it is unavailable if and only if the spend is malformed, the table or the
   read-back fails, or the read-back finds no row.
   */
  lemma AnsweredExactlyThen(states: seq<State>, events: seq<Event>, n: nat, claim: ClaimId)
    requires Run(states, events) && n < |events|
    requires claim in states[n].calls ==> !states[n].calls[claim].phase.Done?
    ensures var s, t, e := states[n], states[n + 1], events[n];
            && (Answers(t, claim, Answered(true)) <==> e == Ack(claim) || (e == ReadBack(claim) && s.calls[claim].create.Landed?))
            && (Answers(t, claim, Answered(false)) <==> e == ReadBack(claim) && TakenByOther(s, claim))
            && (Answers(t, claim, Unavailable) <==>
                  || (e.Begin? && e.claim == claim && !WellFormed(e.spend))
                  || e == Fail(claim)
                  || (e == ReadBack(claim) && s.calls[claim].spend !in s.rows))
  {
    if events[n] == ReadBack(claim) { ReadBackAnswers(states, events, n, claim); }
    if events[n].Begin? { WellFormedIsHex(events[n].spend); }
  }

  lemma ExtendRun(states: seq<State>, events: seq<Event>, e: Event) returns (longer: seq<State>, more: seq<Event>)
    requires Run(states, events) && Enabled(states[|events|], e)
    ensures Run(longer, more) && more == events + [e] && longer[|more|] == Apply(states[|events|], e)
  {
    longer, more := states + [Apply(states[|events|], e)], events + [e];
    forall i | 0 <= i < |more| ensures Enabled(longer[i], more[i]) && longer[i + 1] == Apply(longer[i], more[i]) {
      if i < |events| { assert longer[i] == states[i] && more[i] == events[i]; }
    }
  }

  /**
   A lost acknowledgement burns no token. After any run, a fresh call for a well-formed spend that is left
   undisturbed answers whether the spend was still free, and whether its create is acknowledged or the
   acknowledgement is lost makes no difference.
   */
  lemma FreshSpendIsHonoured(states: seq<State>, events: seq<Event>, claim: ClaimId, spend: Spend, lost: bool)
    returns (longer: seq<State>, more: seq<Event>)
    requires Run(states, events) && WellFormed(spend) && Enabled(states[|events|], Begin(claim, spend))
    ensures Run(longer, more)
    ensures var free := spend !in states[|events|].rows;
            && more == events + [Begin(claim, spend), TableReady(claim)]
                 + (if free then [Land(claim)] + (if lost then [Error(claim), ReadBack(claim)] else [Ack(claim)])
                    else [Reject(claim), Error(claim), ReadBack(claim)])
            && Answers(longer[|more|], claim, Answered(free))
  {
    var s := states[|events|];
    WellFormedIsHex(spend);
    longer, more := ExtendRun(states, events, Begin(claim, spend));
    longer, more := ExtendRun(longer, more, TableReady(claim));
    if spend in s.rows {
      assert s.rows[spend] in s.rows.Values;
      longer, more := ExtendRun(longer, more, Reject(claim));
      longer, more := Reread(longer, more, claim);
    } else {
      longer, more := ExtendRun(longer, more, Land(claim));
      if lost { longer, more := Reread(longer, more, claim); } else { longer, more := ExtendRun(longer, more, Ack(claim)); }
    }
  }

  /** The create fails for its caller, and the row is read back. */
  lemma Reread(states: seq<State>, events: seq<Event>, claim: ClaimId) returns (longer: seq<State>, more: seq<Event>)
    requires Run(states, events) && claim in states[|events|].calls && states[|events|].calls[claim].phase.Creating?
    requires states[|events|].calls[claim].spend in states[|events|].rows
    ensures Run(longer, more) && more == events + [Error(claim), ReadBack(claim)]
    ensures var s := states[|events|]; Answers(longer[|more|], claim, Answered(s.rows[s.calls[claim].spend] == claim))
  {
    longer, more := ExtendRun(states, events, Error(claim));
    longer, more := ExtendRun(longer, more, ReadBack(claim));
  }

  // ----- The bounded in-memory store -----

  /** One redemption against the accepted keys, in the order of acceptance, with an optional capacity. */
  function RedeemKey(cap: Option<nat>, spent: seq<string>, key: string): (seq<string>, Answer) {
    if key in spent then (spent, Answered(false))
    else if cap.Some? && |spent| >= cap.value then (spent, Unavailable)
    else (spent + [key], Answered(true))
  }

  /** The keys accepted by the first `n` of a sequence of redemptions. */
  function Spent(cap: Option<nat>, keys: seq<string>, n: nat): seq<string>
    requires n <= |keys|
  {
    if n == 0 then [] else RedeemKey(cap, Spent(cap, keys, n - 1), keys[n - 1]).0
  }

  function AnswerAt(cap: Option<nat>, keys: seq<string>, i: nat): Answer
    requires i < |keys|
  {
    RedeemKey(cap, Spent(cap, keys, i), keys[i]).1
  }

  /** The key under which the memory store files a spend. */
  function JoinKey(s: Spend): string {
    s.fingerprint + ":" + s.nullifier
  }

  /** A fingerprint without a colon, as a hex digest is, makes the joined key unambiguous. */
  lemma JoinKeyInjective(a: Spend, b: Spend)
    requires ':' !in a.fingerprint && ':' !in b.fingerprint
    requires JoinKey(a) == JoinKey(b)
    ensures a == b
  {
    var m, n := |a.fingerprint|, |b.fingerprint|;
    assert JoinKey(a)[m] == ':' && JoinKey(b)[n] == ':';
    assert forall i :: 0 <= i < m ==> JoinKey(a)[i] == a.fingerprint[i];
    assert forall i :: 0 <= i < n ==> JoinKey(b)[i] == b.fingerprint[i];
    assert m == n;
    assert JoinKey(a)[..m] == a.fingerprint && JoinKey(b)[..m] == b.fingerprint;
    assert JoinKey(a)[m + 1..] == a.nullifier && JoinKey(b)[m + 1..] == b.nullifier;
  }

  class MemoryRedemptionStore {
    const maxKeys: nat
    var spent: set<string>
    /** Every spend presented so far. */
    ghost var presented: seq<Spend>

    ghost predicate Valid()
      reads this
    {
      var accepted := Spent(Some(maxKeys), JoinKeys(presented), |presented|);
      |spent| == |accepted| && forall k :: k in spent <==> k in accepted
    }

    constructor (maxKeys: nat)
      requires maxKeys >= 1
      ensures Valid() && this.maxKeys == maxKeys && spent == {} && presented == []
    {
      this.maxKeys := maxKeys;
      spent, presented := {}, [];
    }

    /**
     The answer is that of the specification. It is unavailable exactly for a key that is not held while
     the store is full; and when there is an answer, it says whether this very spend was presented
     before, as long as fingerprints have no colon.
     */
    method Redeem(s: Spend) returns (answer: Answer)
      requires Valid()
      modifies this
      ensures Valid() && presented == old(presented) + [s]
      ensures answer == AnswerAt(Some(maxKeys), JoinKeys(presented), |presented| - 1)
      ensures spent == if answer == Answered(true) then old(spent) + {JoinKey(s)} else old(spent)
      ensures answer.Unavailable? <==> JoinKey(s) !in old(spent) && old(|spent|) >= maxKeys
      ensures answer.Answered? && ColonFree(presented) ==> (answer.accepted <==> s !in old(presented))
    {
      NextRedeem(maxKeys, presented, s);
      presented := presented + [s];
      var key := s.fingerprint + ":" + s.nullifier;
      if key in spent { return Answered(false); }
      if |spent| >= maxKeys { return Unavailable; }
      spent := spent + {key};
      return Answered(true);
    }
  }

  /** Fingerprints without a colon, as hex digests are. */
  ghost predicate ColonFree(spends: seq<Spend>) {
    forall s :: s in spends ==> ':' !in s.fingerprint
  }

  function JoinKeys(spends: seq<Spend>): seq<string> {
    seq(|spends|, i requires 0 <= i < |spends| => JoinKey(spends[i]))
  }

  /** The next redemption, seen from the keys accepted before. */
  lemma {:induction false} NextRedeem(cap: nat, spends: seq<Spend>, s: Spend)
    ensures var n, keys := |spends|, JoinKeys(spends + [s]);
            var before := Spent(Some(cap), JoinKeys(spends), n);
            && Spent(Some(cap), keys, n) == before && keys[n] == JoinKey(s)
            && (AnswerAt(Some(cap), keys, n).Answered? && ColonFree(spends + [s]) ==>
                  (AnswerAt(Some(cap), keys, n).accepted <==> s !in spends))
  {
    var n, longer := |spends|, spends + [s];
    assert JoinKeys(longer) == JoinKeys(spends) + [JoinKey(s)];
    SpentOfPrefix(Some(cap), JoinKeys(spends), [JoinKey(s)], n);
    if ColonFree(longer) {
      BoundedAnswersOnSpends(cap, longer, n);
      assert longer[..n] == spends;
    }
  }

  lemma {:induction false} SpentOfPrefix(cap: Option<nat>, keys: seq<string>, more: seq<string>, n: nat)
    requires n <= |keys|
    ensures Spent(cap, keys + more, n) == Spent(cap, keys, n)
  {
    if n > 0 { SpentOfPrefix(cap, keys, more, n - 1); }
  }

  /** Without a bound, exactly the keys presented are accepted, each once. */
  lemma {:induction false} UnboundedAccepts(keys: seq<string>, n: nat)
    requires n <= |keys|
    ensures forall k :: k in Spent(None, keys, n) <==> k in keys[..n]
    ensures NoRepeats(Spent(None, keys, n))
  {
    if n > 0 {
      UnboundedAccepts(keys, n - 1);
      assert keys[..n] == keys[..n - 1] + [keys[n - 1]];
    }
  }

  ghost predicate NoRepeats(s: seq<string>) {
    forall i, j :: 0 <= i < j < |s| ==> s[i] != s[j]
  }

  function FirstOf(s: seq<string>, cap: nat): seq<string> {
    if |s| <= cap then s else s[..cap]
  }

  /** A store of capacity `cap` has accepted the first `cap` distinct keys. */
  lemma {:induction false} BoundedAcceptsFirst(cap: nat, keys: seq<string>, n: nat)
    requires n <= |keys|
    ensures Spent(Some(cap), keys, n) == FirstOf(Spent(None, keys, n), cap)
  {
    if n > 0 { BoundedAcceptsFirst(cap, keys, n - 1); }
  }

  /** No place for this key: `cap` distinct keys came before, and it is not among the first `cap`. */
  ghost predicate Crowded(cap: nat, keys: seq<string>, i: nat)
    requires i < |keys|
  {
    var distinct := Spent(None, keys, i);
    |distinct| >= cap && keys[i] !in FirstOf(distinct, cap)
  }

  /**
   Call by call, the bounded store is the unbounded one except that it is unavailable for a key it has
   not accepted once it is full; and it accepts a key at most once.
   */
  lemma {:induction false} BoundedAnswers(cap: nat, keys: seq<string>, i: nat)
    requires i < |keys|
    ensures AnswerAt(Some(cap), keys, i) == if Crowded(cap, keys, i) then Unavailable else AnswerAt(None, keys, i)
    ensures AnswerAt(None, keys, i) == Answered(keys[i] !in keys[..i])
    ensures AnswerAt(Some(cap), keys, i) == Answered(true) ==>
              forall j :: i < j < |keys| && keys[j] == keys[i] ==> AnswerAt(Some(cap), keys, j) == Answered(false)
  {
    BoundedAcceptsFirst(cap, keys, i);
    UnboundedAccepts(keys, i);
    forall j | i < j < |keys| && AnswerAt(Some(cap), keys, i) == Answered(true) ensures keys[i] in Spent(Some(cap), keys, j) {
      SpentGrows(Some(cap), keys, i + 1, j);
      var n := |Spent(Some(cap), keys, i)|;
      assert Spent(Some(cap), keys, j)[n] == Spent(Some(cap), keys, i + 1)[n] == keys[i];
    }
  }

  lemma {:induction false} SpentGrows(cap: Option<nat>, keys: seq<string>, i: nat, j: nat)
    requires i <= j <= |keys|
    ensures Spent(cap, keys, i) <= Spent(cap, keys, j)
    decreases j - i
  {
    if i < j { SpentGrows(cap, keys, i, j - 1); }
  }

  /** The same for spends: an answer, when there is one, says whether this very spend was presented before. */
  lemma {:induction false} BoundedAnswersOnSpends(cap: nat, spends: seq<Spend>, i: nat)
    requires i < |spends| && ColonFree(spends)
    ensures AnswerAt(Some(cap), JoinKeys(spends), i) ==
            if Crowded(cap, JoinKeys(spends), i) then Unavailable else Answered(spends[i] !in spends[..i])
  {
    var keys := JoinKeys(spends);
    BoundedAnswers(cap, keys, i);
    assert keys[i] in keys[..i] <==> spends[i] in spends[..i] by {
      if keys[i] in keys[..i] {
        var j :| 0 <= j < i && keys[j] == keys[i];
        JoinKeyInjective(spends[i], spends[j]);
      }
      if spends[i] in spends[..i] {
        var j :| 0 <= j < i && spends[j] == spends[i];
        assert keys[..i][j] == keys[i];
      }
    }
  }

  /**
   A store of capacity `cap` is indistinguishable from an unbounded one on a run of redemptions
   if and only if the run presents at most `cap` distinct keys.
   */
  lemma {:induction false} AgreesExactlyWithinCapacity(cap: nat, keys: seq<string>)
    ensures (forall i :: 0 <= i < |keys| ==> AnswerAt(Some(cap), keys, i) == AnswerAt(None, keys, i))
            <==> |set k | k in keys| <= cap
  {
    DistinctCount(keys);
    if |Spent(None, keys, |keys|)| <= cap {
      forall i | 0 <= i < |keys| ensures AnswerAt(Some(cap), keys, i) == AnswerAt(None, keys, i) {
        BoundedAcceptsFirst(cap, keys, i);
        BoundedAcceptsFirst(cap, keys, i + 1);
        SpentGrows(None, keys, i + 1, |keys|);
      }
    } else {
      var i := Overflow(cap, keys, |keys|);
      BoundedAnswers(cap, keys, i);
    }
  }

  /** The call at which the distinct keys first exceed `cap` finds the bounded store full. */
  lemma {:induction false} Overflow(cap: nat, keys: seq<string>, n: nat) returns (i: nat)
    requires n <= |keys| && |Spent(None, keys, n)| > cap
    ensures i < n && AnswerAt(None, keys, i) == Answered(true) && Crowded(cap, keys, i)
  {
    i := n - 1;
    if |Spent(None, keys, n - 1)| > cap { i := Overflow(cap, keys, n - 1); }
  }

  lemma {:induction false} DistinctCount(keys: seq<string>)
    ensures |set k | k in keys| == |Spent(None, keys, |keys|)|
  {
    var distinct := Spent(None, keys, |keys|);
    UnboundedAccepts(keys, |keys|);
    assert keys[..|keys|] == keys;
    assert (set k | k in keys) == (set k | k in distinct);
    SizeOfDistinct(distinct);
  }

  lemma {:induction false} SizeOfDistinct(s: seq<string>)
    requires NoRepeats(s)
    ensures |set k | k in s| == |s|
  {
    if s != [] {
      var init, last := s[..|s| - 1], s[|s| - 1];
      SizeOfDistinct(init);
      assert s == init + [last];
      assert (set k | k in s) == (set k | k in init) + {last};
    }
  }
}
