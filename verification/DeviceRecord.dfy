/**
 The record kept for one device and the single decision a reservation makes on it
 (token-issuer/state-store.js). Everything the issuer promises about counters and quotas
 is a statement about chains of these decisions, in commit order.
 */
module DeviceRecord {
  import opened Prelude

  const MAX_PEM_LENGTH := 4096

  type CommitId = nat

  datatype Mode = Attestation | Assertion | OtherMode

  datatype Request = Request(mode: Mode, pem: string, signCount: int, epoch: int, count: int)

  /** `quota` maps an epoch to the tokens already charged to it. */
  datatype Record = Record(version: int, commitId: CommitId, pem: string, signCount: int,
                           latestEpoch: int, quota: map<int, int>)

  datatype Reason = UnknownDeviceKey | KeyMismatch | ReplayedAssertion | ExpiredEpoch | QuotaExceeded

  /** What one pass over a record yields: a new record to store, a refusal, or StateUnavailable. */
  datatype Decision = Write(value: Record) | Refuse(reason: Reason) | Throw

  predicate ValidRequest(req: Request) {
    && !req.mode.OtherMode?
    && SafeNat(req.signCount)
    && SafeNat(req.epoch)
    && SafeNat(req.count) && req.count >= 1
    && |req.pem| <= MAX_PEM_LENGTH
  }

  predicate Checked(r: Record) {
    && r.version == 1
    && |r.pem| <= MAX_PEM_LENGTH
    && SafeNat(r.signCount)
    && SafeNat(r.latestEpoch)
    && |r.quota| <= 2
    && forall e :: e in r.quota ==> (e == r.latestEpoch || e == r.latestEpoch - 1) && SafeNat(r.quota[e])
  }

  function Used(prior: Option<Record>, epoch: int): int {
    if prior.Some? && epoch in prior.value.quota then prior.value.quota[epoch] else 0
  }

  /** A stored latestEpoch of 0 is falsy in the source and falls back to the request's epoch. */
  function LatestEpoch(prior: Option<Record>, epoch: int): int {
    Max(epoch, if prior.Some? && prior.value.latestEpoch != 0 then prior.value.latestEpoch else epoch)
  }

  /** The non-zero entries that survive when `latest` becomes the newest epoch. */
  function Kept(prior: Option<Record>, latest: int): map<int, int> {
    map e | e in {latest, latest - 1} && Used(prior, e) != 0 :: Used(prior, e)
  }

  function Decide(quota: nat, prior: Option<Record>, id: CommitId, req: Request): Decision {
    if prior.Some? && !Checked(prior.value) then Throw
    else if req.mode.Assertion? && prior.None? then Refuse(UnknownDeviceKey)
    else if prior.Some? && prior.value.pem != req.pem then Refuse(KeyMismatch)
    else if req.mode.Assertion? && req.signCount <= prior.value.signCount then Refuse(ReplayedAssertion)
    else
      var latest := LatestEpoch(prior, req.epoch);
      var used := Used(prior, req.epoch);
      if req.epoch < latest - 1 then Refuse(ExpiredEpoch)
      else if !SafeNat(used + req.count) then Throw
      else if quota > 0 && used + req.count > quota then Refuse(QuotaExceeded)
      else Write(Record(1, id, req.pem,
                        Max(req.signCount, if prior.Some? then prior.value.signCount else 0),
                        latest, Kept(prior, latest)[req.epoch := used + req.count]))
  }

  /** One committed reservation. */
  datatype Commit = Commit(id: CommitId, req: Request)

  /**
   `rows` is the history of row values, oldest first, and each value is the decision on the
   value before it for the request committed at that point.
   */
  ghost predicate Chain(quota: nat, rows: seq<Option<Record>>, log: seq<Commit>) {
    && |rows| == |log| + 1
    && forall i :: 0 <= i < |log| ==> Link(quota, rows[i], log[i], rows[i + 1])
  }

  ghost predicate Link(quota: nat, prior: Option<Record>, c: Commit, next: Option<Record>) {
    ValidRequest(c.req) && next.Some? && Decide(quota, prior, c.id, c.req) == Write(next.value)
  }

  /** Tokens charged to `epoch` by the commits of a log. */
  ghost function Charged(log: seq<Commit>, epoch: int): int {
    if log == [] then 0
    else Charged(log[..|log| - 1], epoch)
         + if log[|log| - 1].req.epoch == epoch then log[|log| - 1].req.count else 0
  }

  lemma {:induction false} ChargedNonNegative(log: seq<Commit>, epoch: int)
    requires forall c :: c in log ==> ValidRequest(c.req)
    ensures Charged(log, epoch) >= 0
  {
    if log != [] {
      assert log[|log| - 1] in log;
      ChargedNonNegative(log[..|log| - 1], epoch);
    }
  }

  lemma SmallMap(m: map<int, int>, a: int, b: int)
    requires m.Keys <= {a, b}
    ensures |m| <= 2
  {
    assert |m.Keys| <= |{a, b}| by { SubsetSize(m.Keys, {a, b}); }
  }

  /**
   What a write does, read off old and new record only: the new record passes the check it will
   meet on the next read, the key never changes, the counter and the newest epoch never go back,
   an assertion strictly raises the counter, exactly `count` tokens are added to the request's
   epoch, and every other epoch still inside the two-epoch window keeps its charge.
   */
  lemma WriteEffect(quota: nat, prior: Option<Record>, c: Commit, next: Option<Record>)
    requires Link(quota, prior, c, next)
    ensures Checked(next.value) && next.value.commitId == c.id
    ensures next.value.pem == c.req.pem
    ensures prior.Some? ==> Checked(prior.value) && prior.value.pem == c.req.pem
    ensures next.value.signCount >= c.req.signCount
    ensures prior.Some? ==> next.value.signCount >= prior.value.signCount
    ensures c.req.mode.Assertion? ==> prior.Some? && next.value.signCount == c.req.signCount > prior.value.signCount
    ensures next.value.latestEpoch - 1 <= c.req.epoch <= next.value.latestEpoch
    ensures prior.Some? ==> next.value.latestEpoch >= prior.value.latestEpoch
    ensures Used(next, c.req.epoch) == Used(prior, c.req.epoch) + c.req.count
    ensures quota > 0 ==> Used(next, c.req.epoch) <= quota
    ensures forall e :: e != c.req.epoch && next.value.latestEpoch - 1 <= e <= next.value.latestEpoch ==>
              Used(next, e) == Used(prior, e)
  {
    SmallMap(next.value.quota, next.value.latestEpoch, next.value.latestEpoch - 1);
  }

  /** Every value a chain stores passes `checked`. */
  lemma ChainChecked(quota: nat, rows: seq<Option<Record>>, log: seq<Commit>, i: nat)
    requires Chain(quota, rows, log)
    requires 0 < i < |rows|
    ensures rows[i].Some? && Checked(rows[i].value) && rows[i].value.commitId == log[i - 1].id
  {
    WriteEffect(quota, rows[i - 1], log[i - 1], rows[i]);
  }

  /** A chain grows by one link at a time. */
  lemma ChainExtend(quota: nat, rows: seq<Option<Record>>, log: seq<Commit>, c: Commit, next: Option<Record>)
    requires Chain(quota, rows, log) && Link(quota, rows[|log|], c, next)
    ensures Chain(quota, rows + [next], log + [c])
  {
  }

  /** A prefix of a chain is a chain. */
  lemma ChainPrefix(quota: nat, rows: seq<Option<Record>>, log: seq<Commit>, n: nat)
    requires Chain(quota, rows, log)
    requires n <= |log|
    ensures Chain(quota, rows[..n + 1], log[..n])
  {
  }

  /**
   Conservation. Whatever has been pruned on the way, the usage stored for an epoch that is
   still inside the window is exactly the usage the chain started from plus everything
   committed to that epoch since; and nothing has been committed to an epoch beyond the newest.
   */
  lemma {:induction false} Conservation(quota: nat, rows: seq<Option<Record>>, log: seq<Commit>, epoch: int)
    requires Chain(quota, rows, log)
    requires |log| > 0
    ensures rows[|log|].Some?
    ensures rows[|log|].value.latestEpoch < epoch ==> Charged(log, epoch) == 0 == Used(rows[0], epoch)
    ensures rows[|log|].value.latestEpoch - 1 <= epoch ==>
              Used(rows[|log|], epoch) == Used(rows[0], epoch) + Charged(log, epoch)
    ensures Used(rows[0], epoch) >= 0
    decreases |log|
  {
    var n := |log| - 1;
    WriteEffect(quota, rows[n], log[n], rows[n + 1]);
    if n > 0 {
      ChainPrefix(quota, rows, log, n);
      Conservation(quota, rows[..n + 1], log[..n], epoch);
      WriteEffect(quota, rows[n - 1], log[n - 1], rows[n]);
    } else {
      assert Charged(log[..n], epoch) == 0;
    }
  }

  /**
   Per-epoch quota over a whole chain: with a positive quota the tokens ever committed to one
   epoch never exceed it, although entries are pruned as the newest epoch advances.
   */
  lemma {:induction false} QuotaBound(quota: nat, rows: seq<Option<Record>>, log: seq<Commit>, epoch: int)
    requires quota > 0
    requires Chain(quota, rows, log)
    ensures Charged(log, epoch) <= quota
    decreases |log|
  {
    if log != [] {
      var n := |log| - 1;
      ChainPrefix(quota, rows, log, n);
      QuotaBound(quota, rows[..n + 1], log[..n], epoch);
      if log[n].req.epoch == epoch {
        WriteEffect(quota, rows[n], log[n], rows[n + 1]);
        Conservation(quota, rows, log, epoch);
      }
    }
  }

  /** Counter, newest epoch and key are monotone along a chain. */
  lemma {:induction false} Monotone(quota: nat, rows: seq<Option<Record>>, log: seq<Commit>, i: nat, j: nat)
    requires Chain(quota, rows, log)
    requires i <= j < |rows| && rows[i].Some?
    ensures rows[j].Some?
    ensures rows[i].value.signCount <= rows[j].value.signCount
    ensures rows[i].value.latestEpoch <= rows[j].value.latestEpoch
    ensures rows[i].value.pem == rows[j].value.pem
    ensures i < j ==> Checked(rows[i].value)
    decreases j - i
  {
    if i < j {
      WriteEffect(quota, rows[i], log[i], rows[i + 1]);
      Monotone(quota, rows, log, i + 1, j);
    }
  }

  /**
   Replay protection over a whole chain: an assertion that commits carries a counter strictly
   above that of every reservation committed before it, of either mode, for the same key.
   Hence one counter value is accepted in an assertion at most once.
   */
  lemma CountersIncrease(quota: nat, rows: seq<Option<Record>>, log: seq<Commit>, i: nat, j: nat)
    requires Chain(quota, rows, log)
    requires i < j < |log|
    ensures log[i].req.pem == log[j].req.pem
    ensures log[j].req.mode.Assertion? ==> log[i].req.signCount < log[j].req.signCount
  {
    WriteEffect(quota, rows[i], log[i], rows[i + 1]);
    Monotone(quota, rows, log, i + 1, j);
    WriteEffect(quota, rows[j], log[j], rows[j + 1]);
  }

  /** The usage of an epoch never shrinks while the epoch stays in the window. */
  lemma {:induction false} UsageGrows(quota: nat, rows: seq<Option<Record>>, log: seq<Commit>, i: nat, j: nat, epoch: int)
    requires Chain(quota, rows, log)
    requires i <= j < |rows| && rows[i].Some? && rows[j].Some?
    requires rows[j].value.latestEpoch - 1 <= epoch
    ensures Used(rows[i], epoch) <= Used(rows[j], epoch)
    decreases j - i
  {
    if i < j {
      WriteEffect(quota, rows[i], log[i], rows[i + 1]);
      Monotone(quota, rows, log, i + 1, j);
      UsageGrows(quota, rows, log, i + 1, j, epoch);
    }
  }

  /**
   A refusal is final. If a request is refused on some value of the row for any reason other
   than an unknown device, no later value of the row would let the same request write: a caller
   that answers early from a value since overwritten never loses a reservation by it.
   */
  lemma RefusalIsFinal(quota: nat, rows: seq<Option<Record>>, log: seq<Commit>, i: nat, j: nat,
                       id: CommitId, req: Request)
    requires Chain(quota, rows, log)
    requires i <= j < |rows|
    requires ValidRequest(req)
    requires Decide(quota, rows[i], id, req).Refuse?
    requires Decide(quota, rows[i], id, req).reason != UnknownDeviceKey
    ensures !Decide(quota, rows[j], id, req).Write?
  {
    // Without a record the only other refusal is a batch larger than the whole quota.
    if rows[i].Some? {
      Monotone(quota, rows, log, i, j);
      if Decide(quota, rows[i], id, req).reason == QuotaExceeded && rows[j].value.latestEpoch - 1 <= req.epoch {
        UsageGrows(quota, rows, log, i, j, req.epoch);
      }
    }
  }

  // ----- The decision as a function of the log -----

  /** The device has a row: one the chain started from, or one that a commit created. */
  ghost predicate Known(start: Option<Record>, log: seq<Commit>) {
    start.Some? || log != []
  }

  /** `pem` is the key of the starting row and of every commit. */
  ghost predicate SameKey(start: Option<Record>, log: seq<Commit>, pem: string) {
    (start.Some? ==> start.value.pem == pem) && forall c :: c in log ==> c.req.pem == pem
  }

  /** `counter` is above that of the starting row and of every commit. */
  ghost predicate FreshCounter(start: Option<Record>, log: seq<Commit>, counter: int) {
    (start.Some? ==> start.value.signCount < counter) && forall c :: c in log ==> c.req.signCount < counter
  }

  /** Neither the starting row nor a commit has reached an epoch beyond `epoch + 1`. */
  ghost predicate EpochOpen(start: Option<Record>, log: seq<Commit>, epoch: int) {
    (start.Some? ==> start.value.latestEpoch <= epoch + 1) && forall c :: c in log ==> c.req.epoch <= epoch + 1
  }

  /** Everything charged to `epoch`, by the starting row and by every commit. */
  ghost function Spent(start: Option<Record>, log: seq<Commit>, epoch: int): int {
    Used(start, epoch) + Charged(log, epoch)
  }

  /**
   The row is what the log says: it is there exactly when the device is known, its counter is the greatest
   and its newest epoch the latest ever committed, and its key is the one key of all commits.
   */
  lemma {:induction false} RowSummarizesLog(quota: nat, rows: seq<Option<Record>>, log: seq<Commit>)
    requires Chain(quota, rows, log)
    ensures rows[|log|].Some? <==> Known(rows[0], log)
    ensures rows[|log|].Some? ==>
              var v := rows[|log|].value;
              && (forall pem :: v.pem == pem <==> SameKey(rows[0], log, pem))
              && (forall n :: v.signCount < n <==> FreshCounter(rows[0], log, n))
              && (forall e :: v.latestEpoch <= e + 1 <==> EpochOpen(rows[0], log, e))
    decreases |log|
  {
    if log != [] {
      var n := |log| - 1;
      ChainPrefix(quota, rows, log, n);
      RowSummarizesLog(quota, rows[..n + 1], log[..n]);
      NextSummary(quota, rows[0], log[..n], rows[n], log[n], rows[n + 1]);
      assert log[..n] + [log[n]] == log;
    }
  }

  lemma NextSummary(quota: nat, start: Option<Record>, log: seq<Commit>, prior: Option<Record>, c: Commit, next: Option<Record>)
    requires Link(quota, prior, c, next)
    requires prior.Some? <==> Known(start, log)
    requires prior.Some? ==>
               && (forall pem :: prior.value.pem == pem <==> SameKey(start, log, pem))
               && (forall n :: prior.value.signCount < n <==> FreshCounter(start, log, n))
               && (forall e :: prior.value.latestEpoch <= e + 1 <==> EpochOpen(start, log, e))
    ensures forall pem :: next.value.pem == pem <==> SameKey(start, log + [c], pem)
    ensures forall n :: next.value.signCount < n <==> FreshCounter(start, log + [c], n)
    ensures forall e :: next.value.latestEpoch <= e + 1 <==> EpochOpen(start, log + [c], e)
  {
    WriteEffect(quota, prior, c, next);
    var all := log + [c];
    assert all[|log|] == c && forall x :: x in all <==> x in log || x == c;
    forall pem ensures next.value.pem == pem <==> SameKey(start, all, pem) {
      assert SameKey(start, all, pem) <==> SameKey(start, log, pem) && c.req.pem == pem;
    }
    forall n ensures next.value.signCount < n <==> FreshCounter(start, all, n) {
      assert FreshCounter(start, all, n) <==> FreshCounter(start, log, n) && c.req.signCount < n;
    }
    forall e ensures next.value.latestEpoch <= e + 1 <==> EpochOpen(start, all, e) {
      assert EpochOpen(start, all, e) <==> EpochOpen(start, log, e) && c.req.epoch <= e + 1;
    }
  }

  /** A request by the right key with, for an assertion, a new counter. */
  ghost predicate Entitled(start: Option<Record>, log: seq<Commit>, req: Request) {
    && SameKey(start, log, req.pem)
    && (req.mode.Assertion? ==> Known(start, log) && FreshCounter(start, log, req.signCount))
  }

  /**
   Acceptance and every reason for refusal, as conditions on what was committed before. Whatever the row
   has pruned, a valid request is written if and only if it comes from the one key of the device, with a
   counter above all committed ones if it is an assertion, for an epoch that no commit has left behind by
   more than one, and within the quota that all commits to its epoch have left.
   */
  lemma DecidedByLog(quota: nat, rows: seq<Option<Record>>, log: seq<Commit>, id: CommitId, req: Request)
    requires Chain(quota, rows, log) && ValidRequest(req)
    requires rows[0].Some? ==> Checked(rows[0].value)
    ensures var d, start, total := Decide(quota, rows[|log|], id, req), rows[0], Spent(rows[0], log, req.epoch) + req.count;
            && (d.Write? <==> Entitled(start, log, req) && EpochOpen(start, log, req.epoch)
                              && total <= MAX_SAFE_INTEGER && (quota > 0 ==> total <= quota))
            && (d == Refuse(UnknownDeviceKey) <==> req.mode.Assertion? && !Known(start, log))
            && (d == Refuse(KeyMismatch) <==> Known(start, log) && !SameKey(start, log, req.pem))
            && (d == Refuse(ReplayedAssertion) <==> req.mode.Assertion? && Known(start, log) && SameKey(start, log, req.pem)
                                                    && !FreshCounter(start, log, req.signCount))
            && (d == Refuse(ExpiredEpoch) <==> Entitled(start, log, req) && !EpochOpen(start, log, req.epoch))
            && (d == Refuse(QuotaExceeded) <==> Entitled(start, log, req) && EpochOpen(start, log, req.epoch)
                                                && total <= MAX_SAFE_INTEGER && 0 < quota < total)
            && (d.Throw? <==> Entitled(start, log, req) && EpochOpen(start, log, req.epoch) && total > MAX_SAFE_INTEGER)
  {
    var row := rows[|log|];
    RowSummarizesLog(quota, rows, log);
    if log != [] {
      ChainChecked(quota, rows, log, |log|);
      Conservation(quota, rows, log, req.epoch);
    }
    assert LatestEpoch(row, req.epoch) <= req.epoch + 1 <==> EpochOpen(rows[0], log, req.epoch);
  }
}
