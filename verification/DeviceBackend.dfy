/**
 The in-process backend and the retry loop that drives it (token-issuer/state-store.js,
 `memoryDeviceBackend` and `createIssuerState`). The backend's `Put` is the storage of
 `ReservationProtocol` with every write resolved at once: it either lands with a fresh ETag or is
 rejected for a stale one.
 */
module DeviceBackend {
  import opened Prelude
  import opened DeviceRecord
  import opened ReservationProtocol

  datatype PutResult = Stored | Stale | Full

  /** What `reserve` answers; `Down` and `OutOfAttempts` are both thrown as StateUnavailable. */
  datatype Outcome = Accepted | Declined(reason: Reason) | Down | OutOfAttempts

  class MemoryDeviceBackend {
    const maxKeys: int
    var rows: map<string, Row>
    var revision: nat

    /** No stored ETag is ahead of the revision counter, so the next one is fresh. */
    ghost predicate Valid()
      reads this
    {
      forall k :: k in rows ==> rows[k].etag <= revision
    }

    function Lookup(key: string): Option<Row>
      reads this
    {
      if key in rows then Some(rows[key]) else None
    }

    constructor (maxKeys: int)
      ensures Valid() && rows == map[] && this.maxKeys == maxKeys
    {
      this.maxKeys := maxKeys;
      rows := map[];
      revision := 0;
    }

    method Get(key: string) returns (row: Option<Row>)
      ensures row == Lookup(key)
    {
      if key in rows {
        return Some(rows[key]);
      }
      return None;
    }

    /** Stores exactly when the ETag is current and there is room; otherwise nothing changes. */
    method Put(key: string, etag: Option<nat>, value: Record) returns (r: PutResult)
      requires Valid()
      modifies this
      ensures Valid()
      ensures r.Stale? <==> EtagOf(old(Lookup(key))) != etag
      ensures r.Full? <==> EtagOf(old(Lookup(key))) == etag == None && old(|rows|) >= maxKeys
      ensures r.Stored? ==> Lookup(key).Some? && Lookup(key).value.value == value
      ensures r.Stored? ==> Lookup(key).value.etag > old(revision) && revision > old(revision)
      ensures r.Stored? ==> rows == old(rows)[key := Lookup(key).value]
      ensures !r.Stored? ==> rows == old(rows) && revision == old(revision)
    {
      var current := if key in rows then Some(rows[key].etag) else None;
      if current != etag {
        return Stale;
      }
      if key !in rows && |rows| >= maxKeys {
        return Full;
      }
      revision := revision + 1;
      rows := rows[key := Row(revision, value)];
      return Stored;
    }
  }

  /** One pass of the loop body: the checks in source order and the loop that builds `counts`. */
  method Plan(quota: nat, prior: Option<Record>, id: CommitId, req: Request) returns (d: Decision)
    ensures d == Decide(quota, prior, id, req)
  {
    if prior.Some? && !Checked(prior.value) { return Throw; }
    if req.mode == Assertion && prior.None? { return Refuse(UnknownDeviceKey); }
    if prior.Some? && prior.value.pem != req.pem { return Refuse(KeyMismatch); }
    if req.mode == Assertion && req.signCount <= prior.value.signCount { return Refuse(ReplayedAssertion); }
    var latest := Max(req.epoch, if prior.Some? && prior.value.latestEpoch != 0 then prior.value.latestEpoch else req.epoch);
    if req.epoch < latest - 1 { return Refuse(ExpiredEpoch); }
    var used := if prior.Some? && req.epoch in prior.value.quota then prior.value.quota[req.epoch] else 0;
    if !SafeNat(used + req.count) { return Throw; }
    if quota > 0 && used + req.count > quota { return Refuse(QuotaExceeded); }
    var counts := KeepWindow(prior, latest);
    counts := counts[req.epoch := used + req.count];
    return Write(Record(1, id, req.pem, Max(req.signCount, if prior.Some? then prior.value.signCount else 0), latest, counts));
  }

  /** The loop that carries over the non-zero counts of the two newest epochs. */
  method KeepWindow(prior: Option<Record>, latest: int) returns (counts: map<int, int>)
    ensures counts == Kept(prior, latest)
  {
    counts := map[];
    var window := [latest, latest - 1];
    for i := 0 to |window|
      invariant counts == map e | e in window[..i] && Used(prior, e) != 0 :: Used(prior, e)
    {
      var e := window[i];
      assert window[..i + 1] == window[..i] + [e];
      if prior.Some? && e in prior.value.quota && prior.value.quota[e] != 0 {
        counts := counts[e := prior.value.quota[e]];
      }
    }
    assert window[..2] == window;
    assert forall e :: e in window <==> e in {latest, latest - 1};
  }

  /** What a call is answered when no other call commits during its first attempt. */
  function Alone(quota: nat, room: bool, prior: Option<Record>, id: CommitId, req: Request): Outcome {
    if !ValidRequest(req) then Down
    else match Decide(quota, prior, id, req)
      case Write(_) => if prior.Some? || room then Accepted else Down
      case Refuse(reason) => Declined(reason)
      case Throw => Down
  }

  class IssuerState {
    const backend: MemoryDeviceBackend
    const quota: nat

    constructor (backend: MemoryDeviceBackend, quota: nat)
      ensures this.backend == backend && this.quota == quota
    {
      this.backend := backend;
      this.quota := quota;
    }

    /** A peer's call that meets no other one: it reads, decides, and its write lands. */
    method RunPeer(key: string, p: Commit) returns (committed: bool)
      requires backend.Valid()
      modifies backend
      ensures backend.Valid() && old(backend.revision) <= backend.revision
      ensures committed <==> Alone(quota, old(|backend.rows|) < backend.maxKeys, old(ValueOf(backend.Lookup(key))), p.id, p.req).Accepted?
      ensures committed ==> Link(quota, old(ValueOf(backend.Lookup(key))), p, ValueOf(backend.Lookup(key)))
      ensures committed ==> key in backend.rows && backend.rows[key].etag > old(backend.revision)
      ensures !committed ==> backend.rows == old(backend.rows)
      ensures backend.rows - {key} == old(backend.rows) - {key}
    {
      if !ValidRequest(p.req) { return false; }
      var row := backend.Get(key);
      var d := Plan(quota, ValueOf(row), p.id, p.req);
      if !d.Write? { return false; }
      var r := backend.Put(key, EtagOf(row), d.value);
      return r.Stored?;
    }

    /** Calls of peers that run to completion, one after another, while this call is suspended. */
    method RunPeers(key: string, peers: seq<Commit>, ghost rows0: seq<Option<Record>>, ghost log0: seq<Commit>)
      returns (ghost rows: seq<Option<Record>>, ghost log: seq<Commit>)
      requires backend.Valid()
      requires Chain(quota, rows0, log0) && rows0[|log0|] == ValueOf(backend.Lookup(key))
      modifies backend
      ensures backend.Valid()
      ensures Chain(quota, rows, log) && rows[|log|] == ValueOf(backend.Lookup(key))
      ensures rows0 <= rows && log0 <= log
      ensures forall i :: |log0| <= i < |log| ==> log[i] in peers
      ensures if |log| == |log0| then backend.rows == old(backend.rows)
              else EtagOf(backend.Lookup(key)) != EtagOf(old(backend.Lookup(key)))
      ensures backend.rows - {key} == old(backend.rows) - {key}
    {
      rows, log := rows0, log0;
      for i := 0 to |peers|
        invariant backend.Valid() && old(backend.revision) <= backend.revision
        invariant Chain(quota, rows, log) && rows[|log|] == ValueOf(backend.Lookup(key))
        invariant rows0 <= rows && log0 <= log
        invariant forall i :: |log0| <= i < |log| ==> log[i] in peers
        invariant if |log| == |log0| then backend.rows == old(backend.rows)
                  else key in backend.rows && backend.rows[key].etag > old(backend.revision)
        invariant backend.rows - {key} == old(backend.rows) - {key}
      {
        var committed := RunPeer(key, peers[i]);
        if committed {
          ChainExtend(quota, rows, log, peers[i], ValueOf(backend.Lookup(key)));
          rows, log := rows + [ValueOf(backend.Lookup(key))], log + [peers[i]];
        }
      }
    }

    /**
     One attempt of the loop: read, decide, let the peers run, write. `answer` is None when the
     write lost the race and the loop goes round again, which takes a peer commit.
     */
    method Attempt(key: string, id: CommitId, req: Request, peers: seq<Commit>,
                   ghost rows0: seq<Option<Record>>, ghost log0: seq<Commit>)
      returns (answer: Option<Outcome>, ghost rows: seq<Option<Record>>, ghost log: seq<Commit>)
      requires backend.Valid() && ValidRequest(req)
      requires Chain(quota, rows0, log0) && rows0[|log0|] == ValueOf(backend.Lookup(key))
      modifies backend
      ensures backend.Valid()
      ensures Chain(quota, rows, log) && rows[|log|] == ValueOf(backend.Lookup(key))
      ensures rows0 <= rows && log0 <= log
      ensures answer == Some(Accepted) ==> log == log0 + [Commit(id, req)]
      ensures answer != Some(Accepted) ==> forall i :: |log0| <= i < |log| ==> log[i] in peers
      ensures answer.Some? && answer.value.Declined? ==> Decide(quota, rows0[|log0|], id, req) == Refuse(answer.value.reason)
      ensures answer != Some(OutOfAttempts)
      ensures answer.None? ==> |log| > |log0|
      ensures answer.Some? ==> answer.value == Alone(quota, answer.value.Accepted? || |backend.rows| < backend.maxKeys, rows0[|log0|], id, req)
      ensures answer.Some? && !answer.value.Accepted? ==> log == log0
      ensures peers == [] ==> answer == Some(Alone(quota, old(|backend.rows|) < backend.maxKeys, rows0[|log0|], id, req))
      ensures backend.rows - {key} == old(backend.rows) - {key}
    {
      rows, log := rows0, log0;
      var prior := backend.Get(key);
      var d := Plan(quota, ValueOf(prior), id, req);
      if d.Refuse? { return Some(Declined(d.reason)), rows, log; }
      if d.Throw? { return Some(Down), rows, log; }
      rows, log := RunPeers(key, peers, rows, log);
      assert |log| > |log0| ==> log[|log0|] in peers;
      var r := backend.Put(key, EtagOf(prior), d.value);
      if r.Full? { return Some(Down), rows, log; }
      if r.Stored? {
        ChainExtend(quota, rows, log, Commit(id, req), Some(d.value));
        return Some(Accepted), rows + [Some(d.value)], log + [Commit(id, req)];
      }
      return None, rows, log;
    }

    /**
     The four-attempt loop. `peers[i]` are calls that other replicas complete while attempt `i`
     is suspended between its read and its write. Whatever they do, the row moves by a chain of
     single-step decisions, this call commits exactly once if it answers ok and never otherwise,
     it runs out of attempts only after at least four peer commits, and no other device's row moves.
     It is unavailable only for a malformed request, a value that throws, or a new device when the store is
     full; and if no peer disturbs its first attempt, the answer is that of the row it found.
     */
    method Reserve(key: string, id: CommitId, req: Request, peers: seq<seq<Commit>>)
      returns (answer: Outcome, ghost rows: seq<Option<Record>>, ghost log: seq<Commit>)
      requires backend.Valid()
      requires |peers| == MAX_ATTEMPTS
      requires forall i, c :: 0 <= i < |peers| && c in peers[i] ==> c.id != id
      modifies backend
      ensures backend.Valid()
      ensures Chain(quota, rows, log)
      ensures rows[0] == old(ValueOf(backend.Lookup(key))) && rows[|log|] == ValueOf(backend.Lookup(key))
      ensures answer.Accepted? ==> |log| > 0 && log[|log| - 1] == Commit(id, req)
      ensures answer.Accepted? ==> forall i :: 0 <= i < |log| - 1 ==> log[i].id != id
      ensures !answer.Accepted? ==> forall i :: 0 <= i < |log| ==> log[i].id != id
      ensures answer.Declined? ==> exists i :: 0 <= i < |rows| && Decide(quota, rows[i], id, req) == Refuse(answer.reason)
      ensures answer.OutOfAttempts? ==> |log| >= MAX_ATTEMPTS
      ensures answer.Down? ==> || !ValidRequest(req)
                               || Decide(quota, rows[|log|], id, req).Throw?
                               || (rows[|log|].None? && |backend.rows| >= backend.maxKeys)
      ensures peers[0] == [] ==> answer == Alone(quota, old(|backend.rows|) < backend.maxKeys, rows[0], id, req)
      ensures backend.rows - {key} == old(backend.rows) - {key}
    {
      rows, log := [ValueOf(backend.Lookup(key))], [];
      if !ValidRequest(req) { return Down, rows, log; }
      for attempt := 0 to MAX_ATTEMPTS
        invariant backend.Valid()
        invariant Chain(quota, rows, log)
        invariant rows[0] == old(ValueOf(backend.Lookup(key))) && rows[|log|] == ValueOf(backend.Lookup(key))
        invariant forall i :: 0 <= i < |log| ==> log[i].id != id
        invariant |log| >= attempt
        invariant attempt == 0 ==> backend.rows == old(backend.rows) && log == []
        invariant attempt > 0 ==> peers[0] != []
        invariant backend.rows - {key} == old(backend.rows) - {key}
      {
        ghost var before := |log|;
        var step;
        step, rows, log := Attempt(key, id, req, peers[attempt], rows, log);
        if step.Some? {
          assert 0 <= before < |rows|;
          return step.value, rows, log;
        }
      }
      return OutOfAttempts, rows, log;
    }
  }
}
