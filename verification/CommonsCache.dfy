/**
 The shared feed cache (commons-cache/server.js, `getCachedFeed`): fresh and stale windows as in
 section 3 of RFC 5861, one cold fetch per key, one background refresh per entry, bounded recency
 order.

 A step is one turn of the event loop. What happens between a fetch settling and the code that
 waits for it is left open: a waiting call resumes at any later turn, and so does the reset of an
 entry's flag. `writes` and `answers` record the run.
 */
module CommonsCache {
  import opened Prelude
  import opened RecencyOrder

  datatype Kind = Commons | Comments

  datatype Req = Req(kind: Kind, id: string, sort: string)

  /** What the route handler lets through: id characters are letters, digits and '_', the sort is lower case. */
  predicate ValidReq(r: Req) {
    && r.id != "" && (forall i :: 0 <= i < |r.id| ==> IdChar(r.id[i]))
    && r.sort != "" && (forall i :: 0 <= i < |r.sort| ==> 'a' <= r.sort[i] <= 'z')
  }

  predicate IdChar(c: char) {
    'a' <= c <= 'z' || 'A' <= c <= 'Z' || '0' <= c <= '9' || c == '_'
  }

  function KeyOf(r: Req): Key {
    (if r.kind == Commons then "" else "comments:") + r.id + "/" + r.sort
  }

  /** The result of a fetch; a network failure is status 0 with the error flag. */
  datatype Upstream = Upstream(status: int, error: bool, body: string, contentType: string)

  predicate Good(up: Upstream) {
    up.status == 200 && !up.error
  }

  datatype Config = Config(ttl: int, swr: int, maxEntries: nat, safeType: string -> string)

  /** A cached response; `source` is the fetch it came from. */
  datatype Entry = Entry(req: Req, body: string, contentType: string, fetchedAt: int, revalidating: bool, source: nat)

  datatype Purpose = Cold | Refresh(entry: nat)

  /** `finished`: nothing is left to run after the fetch settled, except the calls that wait for it. */
  datatype Fetch = Fetch(req: Req, purpose: Purpose, result: Option<Upstream>, finished: bool)

  datatype Call = Waiting(req: Req, fetch: nat, leader: bool) | Returned

  datatype CacheState = HIT | STALE | MISS | COALESCED

  datatype Answer =
    | Served(req: Req, state: CacheState, body: string, contentType: string, age: int, source: nat)
    | Unavailable(req: Req, state: CacheState, source: nat)

  datatype State = State(now: int, order: seq<Key>, at: map<Key, nat>, inflight: map<Key, nat>,
                         entries: seq<Entry>, fetches: seq<Fetch>, calls: seq<Call>,
                         writes: seq<Key>, answers: seq<Answer>)

  const INIT := State(0, [], map[], map[], [], [], [], [], [])

  // ----- Turns -----

  /** `cacheSet` with a new entry object. */
  function Store(c: Config, s: State, e: Entry): State {
    var key, order := KeyOf(e.req), Put(s.order, KeyOf(e.req), c.maxEntries);
    s.(order := order,
       at := map k | k in order && (k == key || k in s.at) :: if k == key then |s.entries| else s.at[k],
       entries := s.entries + [e],
       writes := s.writes + [key])
  }

  function EntryFrom(c: Config, s: State, f: nat, up: Upstream): Entry
    requires f < |s.fetches|
  {
    Entry(s.fetches[f].req, up.body, c.safeType(up.contentType), s.now, false, f)
  }

  function ServeEntry(s: State, r: Req, e: Entry, state: CacheState): State {
    s.(answers := s.answers + [Served(r, state, e.body, e.contentType, s.now - e.fetchedAt, e.source)])
  }

  /** Join the cold fetch of this key, or lead a new one. */
  function GoCold(s: State, r: Req): State {
    if KeyOf(r) in s.inflight then
      s.(calls := s.calls + [Waiting(r, s.inflight[KeyOf(r)], false)])
    else
      s.(fetches := s.fetches + [Fetch(r, Cold, None, false)],
         inflight := s.inflight[KeyOf(r) := |s.fetches|],
         calls := s.calls + [Waiting(r, |s.fetches|, true)])
  }

  /** The stale branch that starts a refresh. */
  function StartRefresh(s: State, r: Req, i: nat): State
    requires i < |s.entries|
  {
    s.(entries := s.entries[i := s.entries[i].(revalidating := true)],
       fetches := s.fetches + [Fetch(r, Refresh(i), None, false)])
  }

  /** The synchronous part of `getCachedFeed`. */
  function Get(c: Config, s: State, r: Req): State {
    if KeyOf(r) !in s.at || s.at[KeyOf(r)] >= |s.entries| then GoCold(s, r)
    else
      var i := s.at[KeyOf(r)];
      var e := s.entries[i];
      if s.now - e.fetchedAt < c.ttl then ServeEntry(s, r, e, HIT)
      else if s.now - e.fetchedAt < c.ttl + c.swr then
        ServeEntry(if e.revalidating then s else StartRefresh(s, r, i), r, e, STALE)
      else GoCold(s, r)
  }

  /** A fetch settles: a cold one leaves the single-flight map, a refresh stores what it got. */
  function Settle(c: Config, s: State, f: nat, up: Upstream): State
    requires f < |s.fetches|
  {
    var x := s.fetches[f];
    match x.purpose
    case Cold =>
      s.(fetches := s.fetches[f := x.(result := Some(up), finished := true)], inflight := s.inflight - {KeyOf(x.req)})
    case Refresh(_) =>
      var s' := s.(fetches := s.fetches[f := x.(result := Some(up))]);
      if Good(up) then Store(c, s', EntryFrom(c, s', f, up)) else s'
  }

  /** The `finally` of a refresh. */
  function ResetFlag(s: State, f: nat): State
    requires f < |s.fetches| && s.fetches[f].purpose.Refresh? && s.fetches[f].purpose.entry < |s.entries|
  {
    var i := s.fetches[f].purpose.entry;
    s.(entries := s.entries[i := s.entries[i].(revalidating := false)],
       fetches := s.fetches[f := s.fetches[f].(finished := true)])
  }

  /** A call that waited for a cold fetch goes on; only the leader stores. */
  function Resume(c: Config, s: State, i: nat): State
    requires i < |s.calls| && s.calls[i].Waiting? && s.calls[i].fetch < |s.fetches| && s.fetches[s.calls[i].fetch].result.Some?
  {
    var w := s.calls[i];
    var up := s.fetches[w.fetch].result.value;
    var s1 := s.(calls := s.calls[i := Returned]);
    if !Good(up) then s1.(answers := s1.answers + [Unavailable(w.req, MISS, w.fetch)])
    else
      var s2 := if w.leader then Store(c, s1, EntryFrom(c, s1, w.fetch, up)) else s1;
      s2.(answers := s2.answers + [Served(w.req, if w.leader then MISS else COALESCED, up.body, c.safeType(up.contentType), 0, w.fetch)])
  }

  datatype Event = Tick(ms: nat) | GetE(req: Req) | SettleE(f: nat, up: Upstream) | ResetE(f: nat) | ResumeE(call: nat)

  ghost predicate Enabled(s: State, e: Event) {
    match e
    case Tick(_) => true
    case GetE(r) => ValidReq(r)
    case SettleE(f, _) => f < |s.fetches| && s.fetches[f].result.None?
    case ResetE(f) =>
      && f < |s.fetches| && s.fetches[f].purpose.Refresh? && s.fetches[f].purpose.entry < |s.entries|
      && s.fetches[f].result.Some? && !s.fetches[f].finished
    case ResumeE(i) =>
      i < |s.calls| && s.calls[i].Waiting? && s.calls[i].fetch < |s.fetches| && s.fetches[s.calls[i].fetch].result.Some?
  }

  ghost function Step(c: Config, s: State, e: Event): State
    requires Enabled(s, e)
  {
    match e
    case Tick(ms) => s.(now := s.now + ms)
    case GetE(r) => Get(c, s, r)
    case SettleE(f, up) => Settle(c, s, f, up)
    case ResetE(f) => ResetFlag(s, f)
    case ResumeE(i) => Resume(c, s, i)
  }

  ghost predicate Run(c: Config, events: seq<Event>, states: seq<State>) {
    && |states| == |events| + 1 && states[0] == INIT
    && forall i {:trigger events[i]} :: 0 <= i < |events| ==> Enabled(states[i], events[i]) && states[i + 1] == Step(c, states[i], events[i])
  }

  // ----- Invariant -----

  /** Fetch `f` is a settled 200 for this request, and gave this body and type. */
  ghost predicate CameFrom(c: Config, fetches: seq<Fetch>, f: nat, r: Req, body: string, contentType: string) {
    && f < |fetches| && fetches[f].req == r && fetches[f].result.Some? && Good(fetches[f].result.value)
    && body == fetches[f].result.value.body && contentType == c.safeType(fetches[f].result.value.contentType)
  }

  ghost predicate EntryOk(c: Config, fetches: seq<Fetch>, now: int, e: Entry) {
    ValidReq(e.req) && e.fetchedAt <= now && CameFrom(c, fetches, e.source, e.req, e.body, e.contentType)
  }

  /** A hit is younger than the TTL, a stale answer is past it and inside the stale window. */
  predicate AgeOk(c: Config, state: CacheState, age: int) {
    && age >= 0
    && match state
       case HIT => age < c.ttl
       case STALE => c.ttl <= age < c.ttl + c.swr
       case _ => age == 0
  }

  ghost predicate AnswerOk(c: Config, fetches: seq<Fetch>, a: Answer) {
    match a
    case Served(r, state, body, contentType, age, source) =>
      CameFrom(c, fetches, source, r, body, contentType) && AgeOk(c, state, age)
    case Unavailable(r, state, source) =>
      && source < |fetches| && fetches[source].req == r && fetches[source].result.Some? && !Good(fetches[source].result.value)
      && state == MISS
  }

  ghost predicate CallOk(fetches: seq<Fetch>, w: Call) {
    w.Waiting? ==> w.fetch < |fetches| && fetches[w.fetch].purpose.Cold? && fetches[w.fetch].req == w.req
  }

  ghost predicate OrderOk(c: Config, order: seq<Key>, at: map<Key, nat>, writes: seq<Key>) {
    order == Last(LastWrites(writes), c.maxEntries) && forall k :: k in order <==> k in at
  }

  ghost predicate SlotsOk(at: map<Key, nat>, entries: seq<Entry>) {
    forall k {:trigger at[k]} :: k in at ==> at[k] < |entries| && KeyOf(entries[at[k]].req) == k
  }

  ghost predicate EntriesOk(c: Config, fetches: seq<Fetch>, now: int, entries: seq<Entry>) {
    forall i: nat {:trigger entries[i]} :: i < |entries| ==> EntryOk(c, fetches, now, entries[i])
  }

  ghost predicate CallsOk(fetches: seq<Fetch>, calls: seq<Call>) {
    forall i: nat {:trigger calls[i]} :: i < |calls| ==> CallOk(fetches, calls[i])
  }

  ghost predicate AnswersOk(c: Config, fetches: seq<Fetch>, answers: seq<Answer>) {
    forall i: nat {:trigger answers[i]} :: i < |answers| ==> AnswerOk(c, fetches, answers[i])
  }

  /** A cold fetch is in the single-flight map exactly while it is unsettled. */
  ghost predicate ColdOk(f: nat, x: Fetch, inflight: map<Key, nat>) {
    && ValidReq(x.req)
    && (x.purpose.Cold? ==>
          && (x.result.None? <==> KeyOf(x.req) in inflight && inflight[KeyOf(x.req)] == f)
          && (x.finished <==> x.result.Some?))
  }

  ghost predicate FlightsOk(fetches: seq<Fetch>, inflight: map<Key, nat>) {
    && (forall f: nat {:trigger fetches[f]} :: f < |fetches| ==> ColdOk(f, fetches[f], inflight))
    && (forall k {:trigger inflight[k]} :: k in inflight ==>
          inflight[k] < |fetches| && fetches[inflight[k]].purpose.Cold? && KeyOf(fetches[inflight[k]].req) == k)
  }

  /** Fetch `f` is refreshing entry `i` and its flag is not reset yet. */
  ghost predicate Refreshing(fetches: seq<Fetch>, f: nat, i: nat) {
    f < |fetches| && fetches[f].purpose == Refresh(i) && !fetches[f].finished
  }

  ghost predicate TargetOk(x: Fetch, entries: seq<Entry>) {
    x.purpose.Refresh? ==>
      && (x.finished ==> x.result.Some?)
      && x.purpose.entry < |entries| && entries[x.purpose.entry].req == x.req
      && (!x.finished ==> entries[x.purpose.entry].revalidating)
  }

  /** The entries that some fetch is refreshing are those that carry the flag, and no two fetches refresh one entry. */
  ghost predicate RefreshesOk(fetches: seq<Fetch>, entries: seq<Entry>) {
    && (forall f: nat {:trigger fetches[f]} :: f < |fetches| ==> TargetOk(fetches[f], entries))
    && (forall i: nat {:trigger entries[i]} :: i < |entries| && entries[i].revalidating ==> exists f: nat :: Refreshing(fetches, f, i))
    && (forall f: nat, g: nat, i: nat :: Refreshing(fetches, f, i) && Refreshing(fetches, g, i) ==> f == g)
  }

  ghost predicate Inv(c: Config, s: State) {
    && OrderOk(c, s.order, s.at, s.writes)
    && SlotsOk(s.at, s.entries)
    && EntriesOk(c, s.fetches, s.now, s.entries)
    && CallsOk(s.fetches, s.calls)
    && AnswersOk(c, s.fetches, s.answers)
    && FlightsOk(s.fetches, s.inflight)
    && RefreshesOk(s.fetches, s.entries)
  }

  // ----- Keys -----

  /** Different requests have different keys, so the kinds never share an entry. */
  lemma {:induction false} KeysAreInjective(r: Req, q: Req)
    requires ValidReq(r) && ValidReq(q) && KeyOf(r) == KeyOf(q)
    ensures r == q
  {
    if r.kind == q.kind {
      var n := if r.kind == Commons then "" else "comments:";
      SlashSplits(n, r, q);
    } else if r.kind == Commons {
      OnlyCommentsHaveColon(r, q);
    } else {
      OnlyCommentsHaveColon(q, r);
    }
  }

  lemma {:induction false} SlashSplits(prefix: string, r: Req, q: Req)
    requires ValidReq(r) && ValidReq(q) && prefix + r.id + "/" + r.sort == prefix + q.id + "/" + q.sort
    ensures r.id == q.id && r.sort == q.sort
  {
    var k, j, n := prefix + r.id + "/" + r.sort, prefix + q.id + "/" + q.sort, |prefix|;
    assert k[n + |r.id|] == '/' && j[n + |q.id|] == '/';
    assert forall i :: 0 <= i < |r.id| ==> k[n + i] == r.id[i];
    assert forall i :: 0 <= i < |q.id| ==> j[n + i] == q.id[i];
    assert |r.id| == |q.id|;
    assert r.id == k[n..n + |r.id|] && q.id == j[n..n + |q.id|];
    assert r.sort == k[n + |r.id| + 1..] && q.sort == j[n + |q.id| + 1..];
  }

  lemma {:induction false} OnlyCommentsHaveColon(r: Req, q: Req)
    requires ValidReq(r) && r.kind == Commons && q.kind == Comments
    ensures KeyOf(r) != KeyOf(q)
  {
    NoColon(r);
    assert KeyOf(q)[8] == ':';
  }

  lemma {:induction false} NoColon(r: Req)
    requires ValidReq(r) && r.kind == Commons
    ensures forall i :: 0 <= i < |KeyOf(r)| ==> KeyOf(r)[i] != ':'
  {
  }

  // ----- Every turn keeps the invariant -----

  /** Fetches are only added, and a result once there stays. */
  ghost predicate Grows(a: seq<Fetch>, b: seq<Fetch>) {
    && |a| <= |b|
    && forall f: nat {:trigger b[f]} :: f < |a| ==>
         b[f].req == a[f].req && b[f].purpose == a[f].purpose && (a[f].result.Some? ==> b[f].result == a[f].result)
  }

  /** What was recorded about fetches stays true as they grow. */
  lemma {:induction false} RecordsSurvive(c: Config, s: State, b: seq<Fetch>)
    requires Grows(s.fetches, b)
    ensures EntriesOk(c, s.fetches, s.now, s.entries) ==> EntriesOk(c, b, s.now, s.entries)
    ensures CallsOk(s.fetches, s.calls) ==> CallsOk(b, s.calls)
    ensures AnswersOk(c, s.fetches, s.answers) ==> AnswersOk(c, b, s.answers)
  {
  }

  lemma {:induction false} TickKeepsInv(c: Config, s: State, ms: nat)
    requires Inv(c, s)
    ensures Inv(c, s.(now := s.now + ms))
  {
  }

  lemma {:induction false} AnswerKeepsInv(c: Config, s: State, a: Answer)
    requires Inv(c, s) && AnswerOk(c, s.fetches, a)
    ensures Inv(c, s.(answers := s.answers + [a]))
  {
  }

  lemma {:induction false} CallsKeepInv(c: Config, s: State, calls: seq<Call>)
    requires Inv(c, s) && CallsOk(s.fetches, calls)
    ensures Inv(c, s.(calls := calls))
  {
  }

  lemma {:induction false} StoreKeepsInv(c: Config, s: State, e: Entry)
    requires Inv(c, s) && EntryOk(c, s.fetches, s.now, e) && !e.revalidating
    ensures Inv(c, Store(c, s, e))
  {
    var s', key := Store(c, s, e), KeyOf(e.req);
    StoreOrder(c, s.order, s.at, s.writes, key, s'.order, s'.at);
    StoreSlots(s.at, s.entries, key, e, s'.at);
    MoreEntries(s.fetches, s.entries, e);
  }

  lemma {:induction false} StoreOrder(c: Config, order: seq<Key>, at: map<Key, nat>, writes: seq<Key>, key: Key, order': seq<Key>, at': map<Key, nat>)
    requires OrderOk(c, order, at, writes) && order' == Put(order, key, c.maxEntries)
    requires forall k {:trigger k in at'} :: k in at' <==> k in order' && (k == key || k in at)
    ensures OrderOk(c, order', at', writes + [key])
  {
    PutIsRecency(writes, key, c.maxEntries);
    PutMembers(order, key, c.maxEntries);
  }

  lemma {:induction false} StoreSlots(at: map<Key, nat>, entries: seq<Entry>, key: Key, e: Entry, at': map<Key, nat>)
    requires SlotsOk(at, entries) && key == KeyOf(e.req)
    requires forall k {:trigger at'[k]} :: k in at' ==> if k == key then at'[k] == |entries| else k in at && at'[k] == at[k]
    ensures SlotsOk(at', entries + [e])
  {
  }

  lemma {:induction false} PutMembers(order: seq<Key>, key: Key, max: nat)
    ensures forall k :: k in Put(order, key, max) ==> k == key || k in order
  {
    WithoutMembers(order, key);
    var all := Without(order, key) + [key];
    forall k | k in Put(order, key, max) ensures k == key || k in order { assert k in all; }
  }

  lemma {:induction false} MoreEntries(fetches: seq<Fetch>, entries: seq<Entry>, e: Entry)
    requires RefreshesOk(fetches, entries) && !e.revalidating
    ensures RefreshesOk(fetches, entries + [e])
  {
  }

  lemma {:induction false} ColdKeepsInv(c: Config, s: State, r: Req)
    requires Inv(c, s) && ValidReq(r)
    ensures Inv(c, GoCold(s, r))
  {
    if KeyOf(r) in s.inflight {
      JoinedIsSame(s.fetches, s.inflight, r);
      CallsKeepInv(c, s, GoCold(s, r).calls);
    } else {
      LeadKeepsInv(c, s, r);
    }
  }

  /** The fetch found under the key of a request is for that request. */
  lemma {:induction false} JoinedIsSame(fetches: seq<Fetch>, inflight: map<Key, nat>, r: Req)
    requires FlightsOk(fetches, inflight) && ValidReq(r) && KeyOf(r) in inflight
    ensures CallOk(fetches, Waiting(r, inflight[KeyOf(r)], false))
  {
    var x := fetches[inflight[KeyOf(r)]];
    KeysAreInjective(r, x.req);
  }

  lemma {:induction false} LeadKeepsInv(c: Config, s: State, r: Req)
    requires Inv(c, s) && ValidReq(r) && KeyOf(r) !in s.inflight
    ensures Inv(c, GoCold(s, r))
  {
    var s', x := GoCold(s, r), Fetch(r, Cold, None, false);
    RecordsSurvive(c, s, s'.fetches);
    LeadFlights(s.fetches, s.inflight, KeyOf(r), x);
    ColdFetchRefreshesNothing(s.fetches, s.entries, x);
  }

  /** The new fetch takes the free place of its key and leaves the others theirs. */
  lemma {:induction false} LeadFlights(fetches: seq<Fetch>, inflight: map<Key, nat>, key: Key, x: Fetch)
    requires FlightsOk(fetches, inflight) && key !in inflight
    requires key == KeyOf(x.req) && ValidReq(x.req) && x.purpose.Cold? && x.result.None? && !x.finished
    ensures FlightsOk(fetches + [x], inflight[key := |fetches|])
  {
  }

  lemma {:induction false} ColdFetchRefreshesNothing(fetches: seq<Fetch>, entries: seq<Entry>, x: Fetch)
    requires RefreshesOk(fetches, entries) && x.purpose.Cold?
    ensures RefreshesOk(fetches + [x], entries)
  {
    SameRefreshing(fetches, fetches + [x]);
    forall i: nat | i < |entries| && entries[i].revalidating ensures exists f: nat :: Refreshing(fetches + [x], f, i) {
      var f: nat :| Refreshing(fetches, f, i);
      assert Refreshing(fetches + [x], f, i);
    }
  }

  lemma {:induction false} SameRefreshing(a: seq<Fetch>, b: seq<Fetch>)
    requires |a| <= |b| && forall f: nat {:trigger b[f]} :: f < |b| ==>
               if f < |a| then b[f].purpose == a[f].purpose && b[f].finished == a[f].finished else b[f].purpose.Cold?
    ensures forall f: nat, i: nat :: Refreshing(b, f, i) <==> Refreshing(a, f, i)
  {
  }

  lemma {:induction false} RefreshKeepsInv(c: Config, s: State, r: Req, i: nat)
    requires Inv(c, s) && ValidReq(r) && i < |s.entries| && s.entries[i].req == r && !s.entries[i].revalidating
    ensures Inv(c, StartRefresh(s, r, i))
  {
    var s' := StartRefresh(s, r, i);
    RecordsSurvive(c, s, s'.fetches);
    RefreshStarts(s.fetches, s.entries, r, i);
  }

  lemma {:induction false} RefreshStarts(fetches: seq<Fetch>, entries: seq<Entry>, r: Req, i: nat)
    requires RefreshesOk(fetches, entries) && i < |entries| && entries[i].req == r && !entries[i].revalidating
    ensures RefreshesOk(fetches + [Fetch(r, Refresh(i), None, false)], entries[i := entries[i].(revalidating := true)])
  {
    var n, longer := |fetches|, fetches + [Fetch(r, Refresh(i), None, false)];
    var flagged := entries[i := entries[i].(revalidating := true)];
    assert Refreshing(longer, n, i);
    forall j: nat | j < |flagged| && flagged[j].revalidating ensures exists f: nat :: Refreshing(longer, f, j) {
      if j != i {
        var f: nat :| Refreshing(fetches, f, j);
        assert Refreshing(longer, f, j);
      }
    }
    forall f: nat, g: nat, j: nat | Refreshing(longer, f, j) && Refreshing(longer, g, j) ensures f == g {
      assert f < n ==> Refreshing(fetches, f, j) && TargetOk(fetches[f], entries);
      assert g < n ==> Refreshing(fetches, g, j) && TargetOk(fetches[g], entries);
    }
  }

  /** A cached entry for the key is an entry for the request. */
  lemma {:induction false} EntryFor(c: Config, s: State, r: Req, i: nat)
    requires Inv(c, s) && ValidReq(r) && KeyOf(r) in s.at && i == s.at[KeyOf(r)]
    ensures i < |s.entries| && s.entries[i].req == r && EntryOk(c, s.fetches, s.now, s.entries[i])
  {
    KeysAreInjective(r, s.entries[i].req);
  }

  lemma {:induction false} ServeKeepsInv(c: Config, s: State, r: Req, e: Entry, state: CacheState)
    requires Inv(c, s) && e.req == r && EntryOk(c, s.fetches, s.now, e) && AgeOk(c, state, s.now - e.fetchedAt)
    ensures Inv(c, ServeEntry(s, r, e, state))
  {
    AnswerKeepsInv(c, s, Served(r, state, e.body, e.contentType, s.now - e.fetchedAt, e.source));
  }

  lemma {:induction false} StaleKeepsInv(c: Config, s: State, r: Req, i: nat)
    requires Inv(c, s) && ValidReq(r) && i < |s.entries| && s.entries[i].req == r && !s.entries[i].revalidating
    requires AgeOk(c, STALE, s.now - s.entries[i].fetchedAt)
    ensures Inv(c, ServeEntry(StartRefresh(s, r, i), r, s.entries[i], STALE))
  {
    RefreshKeepsInv(c, s, r, i);
    RecordsSurvive(c, s, StartRefresh(s, r, i).fetches);
    ServeKeepsInv(c, StartRefresh(s, r, i), r, s.entries[i], STALE);
  }

  /** Whichever branch is taken, the new state is that branch's. */
  lemma {:induction false} GetKeepsInv(c: Config, s: State, r: Req)
    requires Inv(c, s) && ValidReq(r)
    ensures Inv(c, Get(c, s, r))
  {
    if KeyOf(r) in s.at {
      var i := s.at[KeyOf(r)];
      EntryFor(c, s, r, i);
      FoundKeepsInv(c, s, r, i, s.entries[i], s.now - s.entries[i].fetchedAt);
      GetFound(c, s, r, i, s.entries[i], s.now - s.entries[i].fetchedAt);
    } else {
      ColdKeepsInv(c, s, r);
    }
  }

  lemma {:induction false} GetFound(c: Config, s: State, r: Req, i: nat, e: Entry, age: int)
    requires KeyOf(r) in s.at && i == s.at[KeyOf(r)] && i < |s.entries| && e == s.entries[i] && age == s.now - e.fetchedAt
    ensures Get(c, s, r) ==
            if age < c.ttl then ServeEntry(s, r, e, HIT)
            else if age < c.ttl + c.swr then ServeEntry(if e.revalidating then s else StartRefresh(s, r, i), r, e, STALE)
            else GoCold(s, r)
  {
  }

  lemma {:induction false} FoundKeepsInv(c: Config, s: State, r: Req, i: nat, e: Entry, age: int)
    requires Inv(c, s) && ValidReq(r) && i < |s.entries| && e == s.entries[i] && e.req == r
    requires EntryOk(c, s.fetches, s.now, e) && age == s.now - e.fetchedAt
    ensures Inv(c, if age < c.ttl then ServeEntry(s, r, e, HIT)
                   else if age < c.ttl + c.swr then ServeEntry(if e.revalidating then s else StartRefresh(s, r, i), r, e, STALE)
                   else GoCold(s, r))
  {
    if age < c.ttl {
      ServeKeepsInv(c, s, r, e, HIT);
    } else if age < c.ttl + c.swr {
      if e.revalidating { ServeKeepsInv(c, s, r, e, STALE); } else { StaleKeepsInv(c, s, r, i); }
    } else {
      ColdKeepsInv(c, s, r);
    }
  }

  /** A refresh has its result; its flag is reset later. */
  lemma {:induction false} RefreshResultKeepsInv(c: Config, s: State, f: nat, up: Upstream)
    requires Inv(c, s) && f < |s.fetches| && s.fetches[f].result.None? && s.fetches[f].purpose.Refresh?
    ensures Inv(c, s.(fetches := s.fetches[f := s.fetches[f].(result := Some(up))]))
  {
    var b := s.fetches[f := s.fetches[f].(result := Some(up))];
    RecordsSurvive(c, s, b);
    SameRefreshing(s.fetches, b);
    KeptRefreshes(s.fetches, b, s.entries);
  }

  lemma {:induction false} KeptRefreshes(a: seq<Fetch>, b: seq<Fetch>, entries: seq<Entry>)
    requires RefreshesOk(a, entries) && |a| == |b|
    requires forall f: nat {:trigger b[f]} :: f < |b| ==>
               b[f].req == a[f].req && b[f].purpose == a[f].purpose && (a[f].result.Some? ==> b[f].result.Some?)
               && (b[f].purpose.Refresh? ==> b[f].finished == a[f].finished)
    ensures RefreshesOk(b, entries)
  {
    forall i: nat | i < |entries| && entries[i].revalidating ensures exists f: nat :: Refreshing(b, f, i) {
      var f: nat :| Refreshing(a, f, i);
      assert Refreshing(b, f, i);
    }
    forall f: nat, g: nat, i: nat | Refreshing(b, f, i) && Refreshing(b, g, i) ensures f == g {
      assert Refreshing(a, f, i) && Refreshing(a, g, i);
    }
  }

  /** A cold fetch that settles gives its place back. */
  lemma {:induction false} ColdResultKeepsInv(c: Config, s: State, f: nat, up: Upstream)
    requires Inv(c, s) && f < |s.fetches| && s.fetches[f].result.None? && s.fetches[f].purpose.Cold?
    ensures Inv(c, s.(fetches := s.fetches[f := s.fetches[f].(result := Some(up), finished := true)],
                      inflight := s.inflight - {KeyOf(s.fetches[f].req)}))
  {
    var b := s.fetches[f := s.fetches[f].(result := Some(up), finished := true)];
    RecordsSurvive(c, s, b);
    LeaveFlights(s.fetches, s.inflight, f, b[f]);
    KeptRefreshes(s.fetches, b, s.entries);
  }

  lemma {:induction false} LeaveFlights(fetches: seq<Fetch>, inflight: map<Key, nat>, f: nat, x: Fetch)
    requires FlightsOk(fetches, inflight) && f < |fetches| && fetches[f].result.None? && fetches[f].purpose.Cold?
    requires x.req == fetches[f].req && x.purpose.Cold? && x.result.Some? && x.finished
    ensures FlightsOk(fetches[f := x], inflight - {KeyOf(x.req)})
  {
    assert ColdOk(f, fetches[f], inflight);
    var b, left := fetches[f := x], inflight - {KeyOf(x.req)};
    forall g: nat | g < |b| ensures ColdOk(g, b[g], left) { assert ColdOk(g, fetches[g], inflight); }
  }

  lemma {:induction false} SettleKeepsInv(c: Config, s: State, f: nat, up: Upstream)
    requires Inv(c, s) && f < |s.fetches| && s.fetches[f].result.None?
    ensures Inv(c, Settle(c, s, f, up))
  {
    var x := s.fetches[f];
    if x.purpose.Cold? {
      ColdResultKeepsInv(c, s, f, up);
    } else {
      var s' := s.(fetches := s.fetches[f := x.(result := Some(up))]);
      RefreshResultKeepsInv(c, s, f, up);
      if Good(up) { StoreKeepsInv(c, s', EntryFrom(c, s', f, up)); }
    }
  }

  lemma {:induction false} ResetKeepsInv(c: Config, s: State, f: nat)
    requires Inv(c, s) && Enabled(s, ResetE(f))
    ensures Inv(c, ResetFlag(s, f))
  {
    var s' := ResetFlag(s, f);
    RecordsSurvive(c, s, s'.fetches);
    RefreshEnds(s.fetches, s.entries, f, s.fetches[f].purpose.entry);
  }

  lemma {:induction false} RefreshEnds(fetches: seq<Fetch>, entries: seq<Entry>, f: nat, i: nat)
    requires RefreshesOk(fetches, entries) && Refreshing(fetches, f, i) && fetches[f].result.Some? && i < |entries|
    ensures RefreshesOk(fetches[f := fetches[f].(finished := true)], entries[i := entries[i].(revalidating := false)])
  {
    var b, clear := fetches[f := fetches[f].(finished := true)], entries[i := entries[i].(revalidating := false)];
    forall g: nat | g < |b| ensures TargetOk(b[g], clear) {
      assert TargetOk(fetches[g], entries);
      assert fetches[g].purpose == Refresh(i) && !fetches[g].finished ==> Refreshing(fetches, g, i);
    }
    forall j: nat | j < |clear| && clear[j].revalidating ensures exists g: nat :: Refreshing(b, g, j) {
      var g: nat :| Refreshing(fetches, g, j);
      assert Refreshing(b, g, j);
    }
    forall g: nat, h: nat, j: nat | Refreshing(b, g, j) && Refreshing(b, h, j) ensures g == h {
      assert Refreshing(fetches, g, j) && Refreshing(fetches, h, j);
    }
  }

  lemma {:induction false} ResumeKeepsInv(c: Config, s: State, i: nat)
    requires Inv(c, s) && Enabled(s, ResumeE(i))
    ensures Inv(c, Resume(c, s, i))
  {
    var w := s.calls[i];
    var up := s.fetches[w.fetch].result.value;
    var s1 := s.(calls := s.calls[i := Returned]);
    CallsKeepInv(c, s, s1.calls);
    assert CallOk(s.fetches, w) && ColdOk(w.fetch, s.fetches[w.fetch], s.inflight);
    if !Good(up) {
      AnswerKeepsInv(c, s1, Unavailable(w.req, MISS, w.fetch));
    } else {
      var s2 := if w.leader then Store(c, s1, EntryFrom(c, s1, w.fetch, up)) else s1;
      if w.leader { StoreKeepsInv(c, s1, EntryFrom(c, s1, w.fetch, up)); }
      AnswerKeepsInv(c, s2, Served(w.req, if w.leader then MISS else COALESCED, up.body, c.safeType(up.contentType), 0, w.fetch));
    }
  }

  lemma {:induction false} StepKeepsInv(c: Config, s: State, e: Event)
    requires Inv(c, s) && Enabled(s, e)
    ensures Inv(c, Step(c, s, e))
  {
    match e
    case Tick(ms) => TickKeepsInv(c, s, ms);
    case GetE(r) => GetKeepsInv(c, s, r);
    case SettleE(f, up) => SettleKeepsInv(c, s, f, up);
    case ResetE(f) => ResetKeepsInv(c, s, f);
    case ResumeE(i) => ResumeKeepsInv(c, s, i);
  }

  lemma {:induction false} RunKeepsInv(c: Config, events: seq<Event>, states: seq<State>, i: nat)
    requires Run(c, events, states) && i < |states|
    ensures Inv(c, states[i])
  {
    if i > 0 {
      RunKeepsInv(c, events, states, i - 1);
      StepKeepsInv(c, states[i - 1], events[i - 1]);
    }
  }

  // ----- Theorems -----

  /**
   Recency. After any run the cache holds the last `maxEntries` distinct keys of the write log, in
   the order of their last writes.
   */
  lemma {:induction false} OrderIsRecency(c: Config, events: seq<Event>, states: seq<State>)
    requires Run(c, events, states)
    ensures var s := states[|events|];
            && s.order == Last(LastWrites(s.writes), c.maxEntries)
            && |s.order| <= c.maxEntries && (forall k :: k in s.order <==> k in s.at)
  {
    RunKeepsInv(c, events, states, |events|);
  }

  /** Single flight. No two unsettled cold fetches have the same key, and each is the one that callers join. */
  lemma {:induction false} OneColdFetchPerKey(c: Config, events: seq<Event>, states: seq<State>, f: nat, g: nat)
    requires Run(c, events, states) && f < |states[|events|].fetches| && g < |states[|events|].fetches|
    requires var s := states[|events|];
             && s.fetches[f].purpose.Cold? && s.fetches[f].result.None?
             && s.fetches[g].purpose.Cold? && s.fetches[g].result.None?
             && KeyOf(s.fetches[f].req) == KeyOf(s.fetches[g].req)
    ensures f == g && KeyOf(states[|events|].fetches[f].req) in states[|events|].inflight
    ensures states[|events|].inflight[KeyOf(states[|events|].fetches[f].req)] == f
  {
    RunKeepsInv(c, events, states, |events|);
    var s := states[|events|];
    assert ColdOk(f, s.fetches[f], s.inflight) && ColdOk(g, s.fetches[g], s.inflight);
  }

  /**
   One refresh per entry. An entry's flag is set exactly while one fetch is refreshing it, and never
   two: the flag cannot stick and cannot be set twice.
   */
  lemma {:induction false} OneRefreshPerEntry(c: Config, events: seq<Event>, states: seq<State>, i: nat)
    requires Run(c, events, states) && i < |states[|events|].entries|
    ensures var s := states[|events|];
            && (s.entries[i].revalidating <==> exists f: nat :: Refreshing(s.fetches, f, i))
            && forall f: nat, g: nat :: Refreshing(s.fetches, f, i) && Refreshing(s.fetches, g, i) ==> f == g
  {
    RunKeepsInv(c, events, states, |events|);
    var s := states[|events|];
    if f: nat :| Refreshing(s.fetches, f, i) { assert TargetOk(s.fetches[f], s.entries); }
  }

  /**
   Every body served, in any run and any cache state, is the body of a settled 200 fetch for the
   same kind, id and sort, with an age inside the window its cache state names; an error answer
   comes from a failed fetch for that request.
   */
  lemma {:induction false} ServedFromOwnFetch(c: Config, events: seq<Event>, states: seq<State>, i: nat)
    requires Run(c, events, states) && i < |states[|events|].answers|
    ensures AnswerOk(c, states[|events|].fetches, states[|events|].answers[i])
  {
    RunKeepsInv(c, events, states, |events|);
  }

  // ----- Only the leader stores -----

  ghost predicate Leads(s: State, i: nat, f: nat) {
    i < |s.calls| && s.calls[i].Waiting? && s.calls[i].leader && s.calls[i].fetch == f
  }

  ghost predicate StoredAs(s: State, i: nat, f: nat) {
    i < |s.entries| && s.entries[i].source == f
  }

  /** Answer `i` serves a body from fetch `f` as a MISS. */
  ghost predicate MissAt(s: State, i: nat, f: nat) {
    i < |s.answers| && s.answers[i].Served? && s.answers[i].state == MISS && s.answers[i].source == f
  }

  /** No fetch is stored twice, has two leaders or two MISS answers, or one of these while its leader still waits. */
  ghost predicate Once(s: State) {
    && |s.writes| == |s.entries|
    && (forall i: nat, j: nat, f: nat :: StoredAs(s, i, f) && StoredAs(s, j, f) ==> i == j)
    && (forall i: nat, j: nat, f: nat :: Leads(s, i, f) && Leads(s, j, f) ==> i == j)
    && (forall i: nat, j: nat, f: nat :: MissAt(s, i, f) && MissAt(s, j, f) ==> i == j)
    && (forall i: nat, j: nat, f: nat :: Leads(s, i, f) ==> !StoredAs(s, j, f))
    && (forall i: nat, j: nat, f: nat :: Leads(s, i, f) ==> !MissAt(s, j, f))
  }

  /** Turns that store nothing and start no leader. */
  lemma {:induction false} OnceFrame(s: State, s': State)
    requires Once(s) && |s'.writes| == |s.writes| && |s'.entries| == |s.entries|
    requires forall i: nat, f: nat {:trigger StoredAs(s', i, f)} :: StoredAs(s', i, f) ==> StoredAs(s, i, f)
    requires forall i: nat, f: nat {:trigger Leads(s', i, f)} :: Leads(s', i, f) ==> Leads(s, i, f)
    requires forall i: nat, f: nat {:trigger MissAt(s', i, f)} :: MissAt(s', i, f) ==> MissAt(s, i, f)
    ensures Once(s')
  {
  }

  lemma {:induction false} OnceStore(c: Config, s: State, e: Entry)
    requires Once(s)
    requires forall i: nat :: !StoredAs(s, i, e.source) && !Leads(s, i, e.source)
    ensures Once(Store(c, s, e))
  {
    var s' := Store(c, s, e);
    forall i: nat, f: nat | StoredAs(s', i, f) ensures if i < |s.entries| then StoredAs(s, i, f) else f == e.source {}
    forall i: nat, f: nat | Leads(s', i, f) ensures Leads(s, i, f) {}
    forall i: nat, f: nat | MissAt(s', i, f) ensures MissAt(s, i, f) {}
  }

  /** The leader's answer. */
  lemma {:induction false} OnceMiss(s: State, a: Answer)
    requires Once(s) && a.Served?
    requires forall i: nat :: !MissAt(s, i, a.source) && !Leads(s, i, a.source)
    ensures Once(s.(answers := s.answers + [a]))
  {
    var s' := s.(answers := s.answers + [a]);
    forall i: nat, f: nat | StoredAs(s', i, f) ensures StoredAs(s, i, f) {}
    forall i: nat, f: nat | Leads(s', i, f) ensures Leads(s, i, f) {}
    forall i: nat, f: nat | MissAt(s', i, f) ensures if i < |s.answers| then MissAt(s, i, f) else f == a.source {}
  }

  lemma {:induction false} OnceLead(c: Config, s: State, r: Req)
    requires Inv(c, s) && Once(s)
    ensures Once(GoCold(s, r))
  {
    var s', n := GoCold(s, r), |s.fetches|;
    forall i: nat, f: nat | StoredAs(s', i, f) ensures StoredAs(s, i, f) && f < n {
      assert EntryOk(c, s.fetches, s.now, s.entries[i]);
    }
    forall i: nat, f: nat | Leads(s', i, f) ensures if i < |s.calls| then Leads(s, i, f) && f < n else f == n {
      if i < |s.calls| { assert CallOk(s.fetches, s.calls[i]); }
    }
    forall i: nat, f: nat | MissAt(s', i, f) ensures MissAt(s, i, f) && f < n {
      assert AnswerOk(c, s.fetches, s.answers[i]);
    }
  }

  lemma {:induction false} OnceServe(s: State, r: Req, e: Entry, state: CacheState)
    requires Once(s) && state != MISS
    ensures Once(ServeEntry(s, r, e, state))
  {
    var s' := ServeEntry(s, r, e, state);
    forall i: nat, f: nat | MissAt(s', i, f) ensures MissAt(s, i, f) {}
    Unchanged(s, s');
  }

  lemma {:induction false} OnceStart(s: State, r: Req, i: nat)
    requires Once(s) && i < |s.entries|
    ensures Once(StartRefresh(s, r, i))
  {
    var s' := StartRefresh(s, r, i);
    forall j: nat, f: nat | MissAt(s', j, f) ensures MissAt(s, j, f) {}
    Unchanged(s, s');
  }

  lemma {:induction false} OnceGet(c: Config, s: State, r: Req)
    requires Inv(c, s) && Once(s)
    ensures Once(Get(c, s, r))
  {
    OnceLead(c, s, r);
    if KeyOf(r) in s.at && s.at[KeyOf(r)] < |s.entries| {
      OnceFound(c, s, r, s.at[KeyOf(r)], s.entries[s.at[KeyOf(r)]]);
    }
  }

  lemma {:induction false} OnceFound(c: Config, s: State, r: Req, i: nat, e: Entry)
    requires Once(s) && i < |s.entries|
    ensures Once(ServeEntry(s, r, e, HIT)) && Once(ServeEntry(s, r, e, STALE)) && Once(ServeEntry(StartRefresh(s, r, i), r, e, STALE))
  {
    OnceServe(s, r, e, HIT);
    OnceServe(s, r, e, STALE);
    OnceStart(s, r, i);
    OnceServe(StartRefresh(s, r, i), r, e, STALE);
  }

  lemma {:induction false} OnceSettle(c: Config, s: State, f: nat, up: Upstream)
    requires Inv(c, s) && Once(s) && f < |s.fetches| && s.fetches[f].result.None?
    ensures Once(Settle(c, s, f, up))
  {
    var x := s.fetches[f];
    var s1 := s.(fetches := s.fetches[f := x.(result := Some(up))]);
    if x.purpose.Refresh? && Good(up) {
      forall i: nat ensures !StoredAs(s1, i, f) && !Leads(s1, i, f) {
        assert i < |s.entries| ==> EntryOk(c, s.fetches, s.now, s.entries[i]);
        assert i < |s.calls| ==> CallOk(s.fetches, s.calls[i]);
      }
      forall i: nat, g: nat | MissAt(s1, i, g) ensures MissAt(s, i, g) {}
      Unchanged(s, s1);
      OnceStore(c, s1, EntryFrom(c, s1, f, up));
    } else {
      forall i: nat, g: nat | MissAt(Settle(c, s, f, up), i, g) ensures MissAt(s, i, g) {}
      Unchanged(s, Settle(c, s, f, up));
    }
  }

  lemma {:induction false} Unchanged(s: State, s': State)
    requires Once(s) && s'.writes == s.writes && s'.calls == s.calls && |s'.entries| == |s.entries|
    requires forall i: nat, f: nat {:trigger MissAt(s', i, f)} :: MissAt(s', i, f) ==> MissAt(s, i, f)
    requires forall i: nat {:trigger s'.entries[i]} :: i < |s.entries| ==> s'.entries[i].source == s.entries[i].source
    ensures Once(s')
  {
    forall i: nat, f: nat | StoredAs(s', i, f) ensures StoredAs(s, i, f) {}
    forall i: nat, f: nat | Leads(s', i, f) ensures Leads(s, i, f) {}
    OnceFrame(s, s');
  }

  lemma {:induction false} OnceResume(c: Config, s: State, i: nat)
    requires Inv(c, s) && Once(s) && Enabled(s, ResumeE(i))
    ensures Once(Resume(c, s, i))
  {
    var w := s.calls[i];
    var up := s.fetches[w.fetch].result.value;
    var s1 := s.(calls := s.calls[i := Returned]);
    forall j: nat, f: nat | StoredAs(s1, j, f) ensures StoredAs(s, j, f) {}
    forall j: nat, f: nat | Leads(s1, j, f) ensures Leads(s, j, f) && j != i {}
    forall j: nat, f: nat | MissAt(s1, j, f) ensures MissAt(s, j, f) {}
    OnceFrame(s, s1);
    if w.leader && Good(up) {
      assert Leads(s, i, w.fetch);
      forall j: nat ensures !StoredAs(s1, j, w.fetch) && !Leads(s1, j, w.fetch) && !MissAt(s1, j, w.fetch) {}
      var s2 := Store(c, s1, EntryFrom(c, s1, w.fetch, up));
      OnceStore(c, s1, EntryFrom(c, s1, w.fetch, up));
      forall j: nat ensures !Leads(s2, j, w.fetch) && !MissAt(s2, j, w.fetch) {
        assert !Leads(s1, j, w.fetch) && !MissAt(s1, j, w.fetch);
      }
      OnceMiss(s2, Served(w.req, MISS, up.body, c.safeType(up.contentType), 0, w.fetch));
    } else {
      var s' := Resume(c, s, i);
      forall j: nat, f: nat | MissAt(s', j, f) ensures MissAt(s1, j, f) {}
      Unchanged(s1, s');
    }
  }

  lemma {:induction false} OnceStep(c: Config, s: State, e: Event)
    requires Inv(c, s) && Once(s) && Enabled(s, e)
    ensures Once(Step(c, s, e))
  {
    var s' := Step(c, s, e);
    match e
    case GetE(r) => OnceGet(c, s, r);
    case SettleE(f, up) => OnceSettle(c, s, f, up);
    case ResumeE(i) => OnceResume(c, s, i);
    case _ =>
      forall i: nat, f: nat | MissAt(s', i, f) ensures MissAt(s, i, f) {}
      Unchanged(s, s');
  }

  lemma {:induction false} RunKeepsOnce(c: Config, events: seq<Event>, states: seq<State>, i: nat)
    requires Run(c, events, states) && i < |states|
    ensures Once(states[i])
  {
    if i > 0 {
      RunKeepsOnce(c, events, states, i - 1);
      RunKeepsInv(c, events, states, i - 1);
      OnceStep(c, states[i - 1], events[i - 1]);
    }
  }

  /**
   Every write stores a different settled 200 fetch: however many calls waited for a fetch, it is
   stored at most once.
   */
  lemma {:induction false} EachFetchStoredOnce(c: Config, events: seq<Event>, states: seq<State>, i: nat, j: nat)
    requires Run(c, events, states) && i < |states[|events|].entries| && j < |states[|events|].entries|
    ensures var s := states[|events|];
            && |s.writes| == |s.entries|
            && s.entries[i].source < |s.fetches| && s.fetches[s.entries[i].source].result.Some?
            && Good(s.fetches[s.entries[i].source].result.value)
            && (s.entries[i].source == s.entries[j].source ==> i == j)
  {
    RunKeepsInv(c, events, states, |events|);
    RunKeepsOnce(c, events, states, |events|);
    var s := states[|events|];
    assert EntryOk(c, s.fetches, s.now, s.entries[i]);
    assert StoredAs(s, i, s.entries[i].source) && StoredAs(s, j, s.entries[j].source);
  }

  /**
   The MISS label. Two different answers from one fetch are both labelled MISS if and only if that fetch
   failed: of a good fetch only the leader's answer has the label, of a failed one every waiter's.
   */
  lemma {:induction false} MissIsSharedExactlyOnFailure(c: Config, events: seq<Event>, states: seq<State>, i: nat, j: nat)
    requires Run(c, events, states) && i < |states[|events|].answers| && j < |states[|events|].answers| && i != j
    requires states[|events|].answers[i].source == states[|events|].answers[j].source
    ensures var s := states[|events|];
            var f := s.answers[i].source;
            && f < |s.fetches| && s.fetches[f].result.Some?
            && (s.answers[i].state == MISS && s.answers[j].state == MISS <==> !Good(s.fetches[f].result.value))
  {
    RunKeepsInv(c, events, states, |events|);
    RunKeepsOnce(c, events, states, |events|);
    var s := states[|events|];
    var f := s.answers[i].source;
    assert AnswerOk(c, s.fetches, s.answers[i]) && AnswerOk(c, s.fetches, s.answers[j]);
    assert s.answers[i].Served? && s.answers[i].state == MISS ==> MissAt(s, i, f);
    assert s.answers[j].Served? && s.answers[j].state == MISS ==> MissAt(s, j, f);
  }

  /** It does happen: a request that joins a fetch which then fails is told MISS like the one that leads it. */
  lemma {:induction false} FollowerOfFailureIsToldMiss(c: Config, r: Req, up: Upstream) returns (events: seq<Event>, states: seq<State>)
    requires ValidReq(r) && !Good(up)
    ensures Run(c, events, states) && |states[|events|].fetches| == 1
    ensures states[|events|].answers == [Unavailable(r, MISS, 0), Unavailable(r, MISS, 0)]
  {
    var s1 := Get(c, INIT, r);
    var s2 := Get(c, s1, r);
    var s3 := Settle(c, s2, 0, up);
    var s4 := Resume(c, s3, 0);
    var s5 := Resume(c, s4, 1);
    events := [GetE(r), GetE(r), SettleE(0, up), ResumeE(0), ResumeE(1)];
    states := [INIT, s1, s2, s3, s4, s5];
    assert s2.calls == [Waiting(r, 0, true), Waiting(r, 0, false)];
  }
}
