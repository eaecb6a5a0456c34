/**
 What a request to the feed cache is answered (commons-cache/server.js, `getCachedFeed`), as conditions on
 what was fetched and written before: nothing good is lost, a write is served for as long as its windows last, and
 only then is the upstream asked again.
 */
module FeedAnswers {
  import opened Prelude
  import opened RecencyOrder
  import opened CommonsCache

  // ----- The latest write of a key -----

  /** Write `i` is the last one under this key. */
  ghost predicate LatestWrite(writes: seq<Key>, key: Key, i: nat) {
    i < |writes| && writes[i] == key && forall j :: i < j < |writes| ==> writes[j] != key
  }

  /** Entry `i` is what write `i` wrote, and every key leads to its latest write. */
  ghost predicate Books(s: State) {
    && |s.entries| == |s.writes|
    && (forall i: nat {:trigger s.entries[i]} :: i < |s.entries| ==> KeyOf(s.entries[i].req) == s.writes[i])
    && (forall k {:trigger s.at[k]} :: k in s.at ==> LatestWrite(s.writes, k, s.at[k]))
  }

  /** Turns that write nothing: entries change at most their flag. */
  ghost predicate SameWrites(s: State, t: State) {
    && t.writes == s.writes && t.at == s.at && |t.entries| == |s.entries|
    && forall i: nat {:trigger t.entries[i]} :: i < |s.entries| ==> t.entries[i] == s.entries[i].(revalidating := t.entries[i].revalidating)
  }

  lemma {:induction false} StoreKeepsBooks(c: Config, s: State, e: Entry)
    requires Books(s)
    ensures Books(Store(c, s, e))
  {
    var t := Store(c, s, e);
    forall k | k in t.at ensures LatestWrite(t.writes, k, t.at[k]) {
      if k != KeyOf(e.req) { assert LatestWrite(s.writes, k, s.at[k]); }
    }
  }

  lemma {:induction false} SameKeepsBooks(s: State, t: State)
    requires Books(s) && SameWrites(s, t)
    ensures Books(t)
  {
  }

  lemma {:induction false} GetWritesNothing(c: Config, s: State, r: Req)
    ensures SameWrites(s, Get(c, s, r))
  {
  }

  /** A turn writes nothing, or it settles a good refresh, or it resumes the leader of a good fetch. */
  ghost predicate WritesEntry(c: Config, s: State, e: Event)
    requires Enabled(s, e)
  {
    match e
    case SettleE(f, up) => s.fetches[f].purpose.Refresh? && Good(up)
    case ResumeE(i) => s.calls[i].leader && Good(s.fetches[s.calls[i].fetch].result.value)
    case _ => false
  }

  /** The fetch whose result such a turn writes. */
  ghost function Written(s: State, e: Event): (f: nat)
    requires Enabled(s, e) && (e.SettleE? || e.ResumeE?)
    ensures f < |s.fetches|
  {
    if e.SettleE? then e.f else s.calls[e.call].fetch
  }

  ghost function ResultOf(s: State, e: Event): Upstream
    requires Enabled(s, e) && (e.SettleE? || e.ResumeE?)
  {
    if e.SettleE? then e.up else s.fetches[s.calls[e.call].fetch].result.value
  }

  /** What a turn does to the entries. */
  lemma {:induction false} StepWrites(c: Config, s: State, e: Event)
    requires Enabled(s, e)
    ensures var t := Step(c, s, e);
            if WritesEntry(c, s, e) then
              var f, up := Written(s, e), ResultOf(s, e);
              && t.writes == s.writes + [KeyOf(s.fetches[f].req)]
              && t.entries == s.entries + [Entry(s.fetches[f].req, up.body, c.safeType(up.contentType), s.now, false, f)]
            else SameWrites(s, t)
  {
    if e.GetE? { GetWritesNothing(c, s, e.req); }
  }

  lemma {:induction false} StepKeepsBooks(c: Config, s: State, e: Event)
    requires Enabled(s, e) && Books(s)
    ensures Books(Step(c, s, e))
  {
    if WritesEntry(c, s, e) {
      var f, up := Written(s, e), ResultOf(s, e);
      var s1 := if e.SettleE? then s.(fetches := s.fetches[f := s.fetches[f].(result := Some(up))])
                else s.(calls := s.calls[e.call := Returned]);
      SameKeepsBooks(s, s1);
      StoreKeepsBooks(c, s1, EntryFrom(c, s1, f, up));
      SameKeepsBooks(Store(c, s1, EntryFrom(c, s1, f, up)), Step(c, s, e));
    } else {
      StepWrites(c, s, e);
      SameKeepsBooks(s, Step(c, s, e));
    }
  }

  lemma {:induction false} RunKeepsBooks(c: Config, events: seq<Event>, states: seq<State>, n: nat)
    requires Run(c, events, states) && n < |states|
    ensures Books(states[n])
  {
    if n > 0 {
      RunKeepsBooks(c, events, states, n - 1);
      StepKeepsBooks(c, states[n - 1], events[n - 1]);
    }
  }

  /**
   Every write has its turn: in which a refresh settled with a 200, or the leader of a 200 resumed. Its
   entry has the body of that fetch and, as long as it exists, the time of that turn.
   */
  lemma {:induction false} WrittenThen(c: Config, events: seq<Event>, states: seq<State>, n: nat, i: nat) returns (k: nat)
    requires Run(c, events, states) && n < |states| && i < |states[n].entries|
    ensures k < n && |states[k].entries| == i && Enabled(states[k], events[k]) && WritesEntry(c, states[k], events[k])
    ensures var e, f, up := states[n].entries[i], Written(states[k], events[k]), ResultOf(states[k], events[k]);
            && e.fetchedAt == states[k].now && e.source == f && e.req == states[k].fetches[f].req
            && e.body == up.body && e.contentType == c.safeType(up.contentType)
    decreases n
  {
    StepWrites(c, states[n - 1], events[n - 1]);
    if i < |states[n - 1].entries| {
      k := WrittenThen(c, events, states, n - 1, i);
    } else {
      k := n - 1;
    }
  }

  // ----- Nothing good is lost -----

  ghost predicate Led(s: State, f: nat) {
    exists i: nat :: Leads(s, i, f)
  }

  ghost predicate Stored(s: State, f: nat) {
    exists i: nat :: StoredAs(s, i, f)
  }

  /** A cold fetch has a leader waiting, or has settled; and a 200 without a waiting leader is stored. */
  ghost predicate Accounted(s: State, f: nat)
    requires f < |s.fetches|
  {
    var x := s.fetches[f];
    (x.purpose.Cold? && Led(s, f)) || ((x.purpose.Cold? ==> x.result.Some?) && (x.result.Some? && Good(x.result.value) ==> Stored(s, f)))
  }

  ghost predicate AllAccounted(s: State) {
    forall f: nat {:trigger s.fetches[f]} :: f < |s.fetches| ==> Accounted(s, f)
  }

  lemma {:induction false} StoredStays(c: Config, s: State, e: Event, f: nat)
    requires Enabled(s, e) && Stored(s, f)
    ensures Stored(Step(c, s, e), f)
  {
    StepWrites(c, s, e);
    var i: nat :| StoredAs(s, i, f);
    assert StoredAs(Step(c, s, e), i, f);
  }

  /** A leader goes on waiting unless it is the call that resumes. */
  lemma {:induction false} LedStays(c: Config, s: State, e: Event, f: nat)
    requires Enabled(s, e) && Led(s, f) && !(e.ResumeE? && Leads(s, e.call, f))
    ensures Led(Step(c, s, e), f)
  {
    var i: nat :| Leads(s, i, f);
    assert Leads(Step(c, s, e), i, f);
  }

  lemma {:induction false} WriterIsStored(c: Config, s: State, e: Event)
    requires Enabled(s, e) && WritesEntry(c, s, e)
    ensures Stored(Step(c, s, e), Written(s, e))
  {
    StepWrites(c, s, e);
    assert StoredAs(Step(c, s, e), |s.entries|, Written(s, e));
  }

  /** The fetches of a turn: those of before, and perhaps one that has just started. */
  lemma {:induction false} StepFetches(c: Config, s: State, e: Event)
    requires Enabled(s, e)
    ensures var t := Step(c, s, e);
            && |s.fetches| <= |t.fetches|
            && (forall f: nat {:trigger t.fetches[f]} :: f < |s.fetches| ==>
                  t.fetches[f].purpose == s.fetches[f].purpose
                  && t.fetches[f].result == if e.SettleE? && e.f == f then Some(e.up) else s.fetches[f].result)
            && (forall f: nat {:trigger t.fetches[f]} :: |s.fetches| <= f < |t.fetches| ==>
                  t.fetches[f].result.None? && (t.fetches[f].purpose.Cold? ==> Leads(t, |s.calls|, f)))
  {
  }

  lemma {:induction false} StepAccounts(c: Config, s: State, e: Event, f: nat)
    requires Enabled(s, e) && f < |Step(c, s, e).fetches|
    requires f < |s.fetches| ==> Accounted(s, f)
    ensures Accounted(Step(c, s, e), f)
  {
    var t := Step(c, s, e);
    StepFetches(c, s, e);
    if f < |s.fetches| {
      if WritesEntry(c, s, e) && Written(s, e) == f {
        WriterIsStored(c, s, e);
      } else if s.fetches[f].purpose.Cold? && Led(s, f) && !(e.ResumeE? && Leads(s, e.call, f)) {
        LedStays(c, s, e, f);
      } else if Stored(s, f) {
        StoredStays(c, s, e, f);
      }
    } else if t.fetches[f].purpose.Cold? {
      assert Leads(t, |s.calls|, f);
    }
  }

  lemma {:induction false} RunAccounts(c: Config, events: seq<Event>, states: seq<State>, n: nat)
    requires Run(c, events, states) && n < |states|
    ensures AllAccounted(states[n])
  {
    if n > 0 {
      RunAccounts(c, events, states, n - 1);
      forall f: nat | f < |states[n].fetches| ensures Accounted(states[n], f) {
        StepAccounts(c, states[n - 1], events[n - 1], f);
      }
    }
  }

  /**
   Every 200 is stored exactly once: in any run, that of a refresh as soon as it settles, and that of a cold
   fetch as soon as its leader has returned; not before, and never twice.
   */
  lemma {:induction false} GoodFetchIsStoredOnce(c: Config, events: seq<Event>, states: seq<State>, n: nat, f: nat)
    requires Run(c, events, states) && n < |states| && f < |states[n].fetches|
    requires states[n].fetches[f].result.Some? && Good(states[n].fetches[f].result.value)
    ensures Stored(states[n], f) <==> states[n].fetches[f].purpose.Refresh? || !Led(states[n], f)
    ensures forall i: nat, j: nat :: StoredAs(states[n], i, f) && StoredAs(states[n], j, f) ==> i == j
  {
    RunAccounts(c, events, states, n);
    RunKeepsOnce(c, events, states, n);
    RunKeepsInv(c, events, states, n);
    assert Accounted(states[n], f);
    var s := states[n];
    if i: nat :| Leads(s, i, f) { assert CallOk(s.fetches, s.calls[i]); }
  }

  // ----- What a request is answered -----

  /** The key of the request is among the last `maxEntries` distinct ones written. */
  ghost predicate Recent(c: Config, s: State, r: Req) {
    KeyOf(r) in Last(LastWrites(s.writes), c.maxEntries)
  }

  /** An unsettled cold fetch of this request. */
  ghost predicate Fetching(s: State, r: Req, f: nat) {
    f < |s.fetches| && s.fetches[f].purpose.Cold? && s.fetches[f].result.None? && s.fetches[f].req == r
  }

  /** The request waits for the one cold fetch of its key, which it has started exactly if there was none. */
  ghost predicate WentCold(s: State, t: State, r: Req, f: nat) {
    && Fetching(t, r, f) && t.answers == s.answers
    && t.calls == s.calls + [Waiting(r, f, !exists g: nat :: Fetching(s, r, g))]
    && (if exists g: nat :: Fetching(s, r, g) then t.fetches == s.fetches else |t.fetches| == |s.fetches| + 1)
  }

  lemma {:induction false} ColdIsTaken(c: Config, s: State, r: Req) returns (f: nat)
    requires Inv(c, s) && ValidReq(r)
    ensures WentCold(s, GoCold(s, r), r, f)
  {
    var t := GoCold(s, r);
    if KeyOf(r) in s.inflight {
      f := s.inflight[KeyOf(r)];
      JoinedIsSame(s.fetches, s.inflight, r);
      assert ColdOk(f, s.fetches[f], s.inflight);
      assert Fetching(s, r, f);
    } else {
      f := |s.fetches|;
      forall g: nat ensures !Fetching(s, r, g) {
        if g < |s.fetches| { assert ColdOk(g, s.fetches[g], s.inflight); }
      }
    }
  }

  ghost function AnswerFrom(s: State, r: Req, w: nat, state: CacheState): Answer
    requires w < |s.entries|
  {
    Served(r, state, s.entries[w].body, s.entries[w].contentType, s.now - s.entries[w].fetchedAt, s.entries[w].source)
  }

  /** One fetch refreshes entry `w`: the one that did before, or else a new one. */
  ghost predicate IsRefreshed(s: State, t: State, r: Req, w: nat, f: nat) {
    && Refreshing(t.fetches, f, w) && t.fetches[f].req == r
    && if exists g: nat :: Refreshing(s.fetches, g, w) then t.fetches == s.fetches else |t.fetches| == |s.fetches| + 1
  }

  lemma {:induction false} StaleIsRefreshed(c: Config, s: State, r: Req, w: nat) returns (f: nat)
    requires Inv(c, s) && w < |s.entries| && s.entries[w].req == r
    ensures IsRefreshed(s, if s.entries[w].revalidating then s else StartRefresh(s, r, w), r, w, f)
  {
    forall g: nat | Refreshing(s.fetches, g, w) ensures s.entries[w].revalidating { assert TargetOk(s.fetches[g], s.entries); }
    if s.entries[w].revalidating {
      f :| Refreshing(s.fetches, f, w);
      assert TargetOk(s.fetches[f], s.entries);
    } else {
      f := |s.fetches|;
    }
  }

  /** The answer from write `w`, of this age, or else the wait for a cold fetch. */
  ghost predicate AnsweredFrom(c: Config, s: State, t: State, r: Req, w: nat, age: int, f: nat)
    requires w < |s.entries|
  {
    if age < c.ttl then t == s.(answers := s.answers + [AnswerFrom(s, r, w, HIT)])
    else if age < c.ttl + c.swr then
      t.answers == s.answers + [AnswerFrom(s, r, w, STALE)] && t.calls == s.calls && IsRefreshed(s, t, r, w, f)
    else WentCold(s, t, r, f)
  }

  lemma {:induction false} FoundIsAnswered(c: Config, s: State, r: Req, w: nat) returns (f: nat)
    requires Inv(c, s) && ValidReq(r) && KeyOf(r) in s.at && w == s.at[KeyOf(r)] && w < |s.entries| && s.entries[w].req == r
    ensures AnsweredFrom(c, s, Get(c, s, r), r, w, s.now - s.entries[w].fetchedAt, f)
  {
    var cold := ColdIsTaken(c, s, r);
    var refresh := StaleIsRefreshed(c, s, r, w);
    f := if s.now - s.entries[w].fetchedAt < c.ttl + c.swr then refresh else cold;
    FoundBranches(c, s, r, w, refresh, cold);
  }

  lemma {:induction false} FoundBranches(c: Config, s: State, r: Req, w: nat, refresh: nat, cold: nat)
    requires KeyOf(r) in s.at && w == s.at[KeyOf(r)] && w < |s.entries|
    requires IsRefreshed(s, if s.entries[w].revalidating then s else StartRefresh(s, r, w), r, w, refresh)
    requires WentCold(s, GoCold(s, r), r, cold)
    ensures var age := s.now - s.entries[w].fetchedAt;
            AnsweredFrom(c, s, Get(c, s, r), r, w, age, if age < c.ttl + c.swr then refresh else cold)
  {
    GetFound(c, s, r, w, s.entries[w], s.now - s.entries[w].fetchedAt);
  }

  lemma {:induction false} RecentIsHeld(c: Config, s: State, r: Req)
    requires Inv(c, s) && ValidReq(r) && Books(s)
    ensures Recent(c, s, r) <==> KeyOf(r) in s.at
    ensures Recent(c, s, r) ==> var w := s.at[KeyOf(r)]; w < |s.entries| && s.entries[w].req == r && LatestWrite(s.writes, KeyOf(r), w)
  {
    if Recent(c, s, r) { EntryFor(c, s, r, s.at[KeyOf(r)]); }
  }

  lemma {:induction false} TurnIsOrdered(c: Config, events: seq<Event>, states: seq<State>, n: nat)
    requires Run(c, events, states) && n < |events|
    ensures Inv(c, states[n]) && Books(states[n]) && Enabled(states[n], events[n]) && states[n + 1] == Step(c, states[n], events[n])
  {
    RunKeepsInv(c, events, states, n);
    RunKeepsBooks(c, events, states, n);
  }

  /**
   The answer to a request, in any run. If its key is among the last `maxEntries` written, let `w` be the
   latest write under it. Younger than the TTL, that write is the answer, a HIT, and nothing is fetched;
   within the stale window it is the answer, STALE, and one refresh of it is under way, started now unless there was
   one; in every other case the request waits for the one cold fetch of its key.
   */
  lemma {:induction false} RequestIsAnswered(c: Config, events: seq<Event>, states: seq<State>, n: nat) returns (w: nat, f: nat)
    requires Run(c, events, states) && n < |events| && events[n].GetE?
    ensures var s, t, r := states[n], states[n + 1], events[n].req;
            if Recent(c, s, r) then
              && LatestWrite(s.writes, KeyOf(r), w) && w < |s.entries| && s.entries[w].req == r
              && AnsweredFrom(c, s, t, r, w, s.now - s.entries[w].fetchedAt, f)
            else WentCold(s, t, r, f)
  {
    TurnIsOrdered(c, events, states, n);
    var s, r := states[n], events[n].req;
    RecentIsHeld(c, s, r);
    if Recent(c, s, r) {
      w := s.at[KeyOf(r)];
      f := FoundIsAnswered(c, s, r, w);
    } else {
      w := 0;
      f := ColdIsTaken(c, s, r);
    }
  }

  /**
   The answer to a call that waited, in any run: it returns with the outcome of its fetch, a MISS if it led the
   fetch or the fetch failed and COALESCED otherwise, and the leader of a 200 leaves it in the cache as the
   latest write of its key, with the time of this turn.
   */
  lemma {:induction false} WaiterIsAnswered(c: Config, events: seq<Event>, states: seq<State>, n: nat)
    requires Run(c, events, states) && n < |events| && events[n].ResumeE?
    ensures var s, t, i := states[n], states[n + 1], events[n].call;
            && i < |s.calls| && s.calls[i].Waiting? && s.calls[i].fetch < |s.fetches| && s.fetches[s.calls[i].fetch].result.Some?
            && var call, up := s.calls[i], s.fetches[s.calls[i].fetch].result.value;
               && t.calls == s.calls[i := Returned] && t.fetches == s.fetches
               && (if Good(up) then
                     t.answers == s.answers + [Served(call.req, if call.leader then MISS else COALESCED, up.body, c.safeType(up.contentType), 0, call.fetch)]
                   else t.answers == s.answers + [Unavailable(call.req, MISS, call.fetch)])
               && (if Good(up) && call.leader then
                     t.entries == s.entries + [Entry(call.req, up.body, c.safeType(up.contentType), s.now, false, call.fetch)]
                     && LatestWrite(t.writes, KeyOf(call.req), |s.entries|)
                   else t.entries == s.entries && t.writes == s.writes)
  {
    RunKeepsInv(c, events, states, n);
    RunKeepsBooks(c, events, states, n);
    StepWrites(c, states[n], events[n]);
    assert CallOk(states[n].fetches, states[n].calls[events[n].call]);
  }

  // ----- Every request is answered once -----

  /** Requests made in a run. */
  ghost function Requests(events: seq<Event>): nat {
    if events == [] then 0 else Requests(events[..|events| - 1]) + if events[|events| - 1].GetE? then 1 else 0
  }

  ghost function StillWaiting(calls: seq<Call>): nat {
    if calls == [] then 0 else StillWaiting(calls[..|calls| - 1]) + if calls[|calls| - 1].Waiting? then 1 else 0
  }

  lemma {:induction false} OneMoreWaits(calls: seq<Call>, call: Call)
    ensures StillWaiting(calls + [call]) == StillWaiting(calls) + if call.Waiting? then 1 else 0
  {
    assert (calls + [call])[..|calls|] == calls;
  }

  lemma {:induction false} OneReturns(calls: seq<Call>, i: nat)
    requires i < |calls| && calls[i].Waiting?
    ensures StillWaiting(calls[i := Returned]) == StillWaiting(calls) - 1
    decreases |calls|
  {
    var n := |calls| - 1;
    if i < n {
      OneReturns(calls[..n], i);
      assert calls[i := Returned][..n] == calls[..n][i := Returned];
    } else {
      assert calls[i := Returned][..n] == calls[..n];
    }
  }

  lemma {:induction false} StepCounts(c: Config, s: State, e: Event)
    requires Enabled(s, e)
    ensures var t := Step(c, s, e);
            |t.answers| + StillWaiting(t.calls) == |s.answers| + StillWaiting(s.calls) + if e.GetE? then 1 else 0
  {
    if e.ResumeE? {
      OneReturns(s.calls, e.call);
    } else if e.GetE? {
      var t := Step(c, s, e);
      if t.calls != s.calls {
        assert t.calls == s.calls + [t.calls[|s.calls|]];
        OneMoreWaits(s.calls, t.calls[|s.calls|]);
      }
    }
  }

  /** In any run, every request has been answered exactly once or is still waiting for its fetch. */
  lemma {:induction false} AnsweredOnce(c: Config, events: seq<Event>, states: seq<State>, n: nat)
    requires Run(c, events, states) && n < |states|
    ensures |states[n].answers| + StillWaiting(states[n].calls) == Requests(events[..n])
  {
    if n > 0 {
      AnsweredOnce(c, events, states, n - 1);
      StepCounts(c, states[n - 1], events[n - 1]);
      assert events[..n][..n - 1] == events[..n - 1];
    }
  }
}
