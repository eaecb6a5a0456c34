/**
 The relay's cache of issuer keys (ohttp-relay/issuer-key-cache.js). `importKey` stands for
 decoding an SPKI document: the key's fingerprint, or None when it is not RSA-2048.
 */
module KeyCache {
  import opened Prelude
  import opened EpochWindow

  const SUITE := "RSABSSA-SHA384-PSS-Deterministic"

  datatype DocKey = DocKey(epoch: int, keyId: string, spki: string)

  datatype Document = Document(schemaVersion: int, suite: string, epochSeconds: int, epoch: int, keys: seq<DocKey>)

  datatype Entry = Entry(fingerprint: string, expiresAt: int)

  type Importer = string -> Option<string>

  /** The entries and epochs seen so far. */
  datatype Parsed = Parsed(keys: map<string, Entry>, epochs: set<int>)

  predicate HeaderOk(doc: Document) {
    && doc.schemaVersion == 1 && doc.suite == SUITE
    && 1 <= doc.epochSeconds <= 31557600
    && 1 <= |doc.keys| <= 2
  }

  predicate KeyOk(importKey: Importer, k: DocKey, epoch: nat, epochs: set<int>) {
    && (k.epoch == epoch || k.epoch == epoch - 1)
    && k.epoch !in epochs
    && |k.spki| <= 2048
    && importKey(k.spki).Some?
    && |importKey(k.spki).value| >= 32 && k.keyId == importKey(k.spki).value[..32]
  }

  function AddKey(importKey: Importer, p: Parsed, k: DocKey, seconds: nat): Parsed
    requires importKey(k.spki).Some?
  {
    var expires := ExpiresAt(k.epoch, seconds);
    Parsed(p.keys[k.keyId := Entry(importKey(k.spki).value,
                                   Max(expires, if k.keyId in p.keys then p.keys[k.keyId].expiresAt else 0))],
           p.epochs + {k.epoch})
  }

  function ParseKeys(importKey: Importer, keys: seq<DocKey>, epoch: nat, seconds: nat): Option<Parsed> {
    if keys == [] then Some(Parsed(map[], {}))
    else match ParseKeys(importKey, keys[..|keys| - 1], epoch, seconds)
      case None => None
      case Some(p) =>
        var k := keys[|keys| - 1];
        if KeyOk(importKey, k, epoch, p.epochs) then Some(AddKey(importKey, p, k, seconds)) else None
  }

  function Parse(importKey: Importer, doc: Document, now: nat): Option<map<string, Entry>> {
    if !HeaderOk(doc) || doc.epoch != EpochAt(now, doc.epochSeconds) then None
    else match ParseKeys(importKey, doc.keys, EpochAt(now, doc.epochSeconds), doc.epochSeconds)
      case None => None
      case Some(p) => if EpochAt(now, doc.epochSeconds) in p.epochs then Some(p.keys) else None
  }

  lemma {:induction false} ParseFails(importKey: Importer, keys: seq<DocKey>, epoch: nat, seconds: nat, n: nat)
    requires n <= |keys| && ParseKeys(importKey, keys[..n], epoch, seconds).None?
    ensures ParseKeys(importKey, keys, epoch, seconds).None?
    decreases |keys| - n
  {
    if n < |keys| {
      assert keys[..n + 1][..n] == keys[..n];
      ParseFails(importKey, keys, epoch, seconds, n + 1);
    } else {
      assert keys[..n] == keys;
    }
  }

  /** The validation loop, which fills `next` and `epochs` as it goes. */
  method ParseDocument(importKey: Importer, doc: Document, now: nat) returns (r: Option<map<string, Entry>>)
    ensures r == Parse(importKey, doc, now)
  {
    if !HeaderOk(doc) { return None; }
    var epoch := EpochAt(now, doc.epochSeconds);
    if doc.epoch != epoch { return None; }
    var next: map<string, Entry>, epochs: set<int> := map[], {};
    for i := 0 to |doc.keys|
      invariant ParseKeys(importKey, doc.keys[..i], epoch, doc.epochSeconds) == Some(Parsed(next, epochs))
    {
      var k := doc.keys[i];
      assert doc.keys[..i + 1][..i] == doc.keys[..i];
      if !KeyOk(importKey, k, epoch, epochs) {
        ParseFails(importKey, doc.keys, epoch, doc.epochSeconds, i + 1);
        return None;
      }
      epochs := epochs + {k.epoch};
      var expires := ExpiresAt(k.epoch, doc.epochSeconds);
      var prior := if k.keyId in next then next[k.keyId].expiresAt else 0;
      next := next[k.keyId := Entry(importKey(k.spki).value, Max(expires, prior))];
    }
    assert doc.keys[..|doc.keys|] == doc.keys;
    if epoch !in epochs { return None; }
    return Some(next);
  }

  // ----- Which documents are accepted, and what is kept of them -----

  /** An entry for the current or previous epoch whose identifier belongs to the RSA-2048 key it carries. */
  ghost predicate Acceptable(importKey: Importer, k: DocKey, epoch: int) {
    && epoch - 1 <= k.epoch <= epoch && |k.spki| <= 2048
    && exists f :: importKey(k.spki) == Some(f) && |f| >= 32 && f[..32] == k.keyId
  }

  ghost predicate AllAcceptable(importKey: Importer, keys: seq<DocKey>, epoch: int) {
    && (forall i :: 0 <= i < |keys| ==> Acceptable(importKey, keys[i], epoch))
    && (forall i, j :: 0 <= i < j < |keys| ==> keys[i].epoch != keys[j].epoch)
  }

  /** The last entry with its identifier. */
  ghost predicate LastOf(keys: seq<DocKey>, i: nat) {
    i < |keys| && forall j :: i < j < |keys| ==> keys[j].keyId != keys[i].keyId
  }

  lemma {:induction false} ParsesAcceptable(importKey: Importer, keys: seq<DocKey>, epoch: nat, seconds: nat)
    ensures ParseKeys(importKey, keys, epoch, seconds).Some? <==> AllAcceptable(importKey, keys, epoch)
  {
    if keys != [] {
      var n := |keys| - 1;
      var init, k := keys[..n], keys[n];
      ParsesAcceptable(importKey, init, epoch, seconds);
      assert Acceptable(importKey, k, epoch) <==>
               (k.epoch == epoch || k.epoch == epoch - 1) && |k.spki| <= 2048 && importKey(k.spki).Some?
               && |importKey(k.spki).value| >= 32 && k.keyId == importKey(k.spki).value[..32];
      if ParseKeys(importKey, init, epoch, seconds).Some? {
        ParsedEpochs(importKey, init, epoch, seconds);
        assert forall i :: 0 <= i < n ==> init[i].epoch == keys[i].epoch;
      }
      AcceptableSnoc(importKey, keys, epoch);
    }
  }

  lemma {:induction false} AcceptableSnoc(importKey: Importer, keys: seq<DocKey>, epoch: int)
    requires keys != []
    ensures var n := |keys| - 1;
            AllAcceptable(importKey, keys, epoch) <==>
            AllAcceptable(importKey, keys[..n], epoch) && Acceptable(importKey, keys[n], epoch)
            && forall i :: 0 <= i < n ==> keys[i].epoch != keys[n].epoch
  {
    var n := |keys| - 1;
    assert forall i :: 0 <= i < n ==> keys[..n][i] == keys[i];
  }

  ghost predicate Declares(keys: seq<DocKey>, id: string) {
    exists i :: 0 <= i < |keys| && keys[i].keyId == id
  }

  lemma {:induction false} DeclaresSnoc(keys: seq<DocKey>, k: DocKey, id: string)
    ensures Declares(keys + [k], id) <==> Declares(keys, id) || k.keyId == id
  {
    var all := keys + [k];
    assert all[|keys|] == k && forall i :: 0 <= i < |keys| ==> all[i] == keys[i];
    if i :| 0 <= i < |keys| && keys[i].keyId == id { assert all[i].keyId == id; }
  }

  /** Exactly the identifiers of the document are held. */
  lemma {:induction false} HoldsIdentifiers(importKey: Importer, keys: seq<DocKey>, epoch: nat, seconds: nat, id: string)
    requires ParseKeys(importKey, keys, epoch, seconds).Some?
    ensures id in ParseKeys(importKey, keys, epoch, seconds).value.keys <==> Declares(keys, id)
  {
    if keys != [] {
      var n := |keys| - 1;
      HoldsIdentifiers(importKey, keys[..n], epoch, seconds, id);
      DeclaresSnoc(keys[..n], keys[n], id);
      assert keys[..n] + [keys[n]] == keys;
    }
  }

  /** Each is held with the fingerprint of the last key declared under it. */
  lemma {:induction false} HoldsLastKey(importKey: Importer, keys: seq<DocKey>, epoch: nat, seconds: nat, i: nat)
    requires ParseKeys(importKey, keys, epoch, seconds).Some? && LastOf(keys, i)
    ensures var held := ParseKeys(importKey, keys, epoch, seconds).value.keys;
            keys[i].keyId in held && Some(held[keys[i].keyId].fingerprint) == importKey(keys[i].spki)
    decreases |keys|
  {
    var n := |keys| - 1;
    if i < n {
      assert LastOf(keys[..n], i) && keys[n].keyId != keys[i].keyId;
      HoldsLastKey(importKey, keys[..n], epoch, seconds, i);
    }
  }

  /**
   A document is accepted if and only if it has the schema, the suite, an epoch length of at most a year,
   one or two keys and the current epoch; every key is for the current or the previous epoch, imports, and
   has the identifier of its fingerprint; no epoch is declared twice; and the current one is declared.
   What is then held are exactly its identifiers, each with the fingerprint of its key.
   */
  lemma {:induction false} ParsesExactly(importKey: Importer, doc: Document, now: nat)
    ensures Parse(importKey, doc, now).Some? <==>
            && doc.schemaVersion == 1 && doc.suite == "RSABSSA-SHA384-PSS-Deterministic"
            && 1 <= doc.epochSeconds <= 31557600 && (|doc.keys| == 1 || |doc.keys| == 2)
            && doc.epoch == now / (1000 * doc.epochSeconds)
            && AllAcceptable(importKey, doc.keys, doc.epoch)
            && exists i :: 0 <= i < |doc.keys| && doc.keys[i].epoch == doc.epoch
    ensures Parse(importKey, doc, now).Some? ==>
              var held := Parse(importKey, doc, now).value;
              && (forall id :: id in held <==> Declares(doc.keys, id))
              && (forall i: nat :: LastOf(doc.keys, i) ==> doc.keys[i].keyId in held && Some(held[doc.keys[i].keyId].fingerprint) == importKey(doc.keys[i].spki))
  {
    if HeaderOk(doc) {
      var epoch := EpochAt(now, doc.epochSeconds);
      ParsesAcceptable(importKey, doc.keys, epoch, doc.epochSeconds);
      if ParseKeys(importKey, doc.keys, epoch, doc.epochSeconds).Some? {
        ParsedEpochs(importKey, doc.keys, epoch, doc.epochSeconds);
        forall id ensures id in ParseKeys(importKey, doc.keys, epoch, doc.epochSeconds).value.keys <==> Declares(doc.keys, id) {
          HoldsIdentifiers(importKey, doc.keys, epoch, doc.epochSeconds, id);
        }
        forall i: nat | LastOf(doc.keys, i)
          ensures var held := ParseKeys(importKey, doc.keys, epoch, doc.epochSeconds).value.keys;
                  doc.keys[i].keyId in held && Some(held[doc.keys[i].keyId].fingerprint) == importKey(doc.keys[i].spki)
        {
          HoldsLastKey(importKey, doc.keys, epoch, doc.epochSeconds, i);
        }
      }
    }
  }

  // ----- A cached key is usable exactly while some epoch it was declared for is live -----

  /** `id` is declared for an epoch that still covers time `t`. */
  ghost predicate DeclaredFor(keys: seq<DocKey>, id: string, t: nat, seconds: nat)
    requires seconds >= 1
  {
    exists i :: 0 <= i < |keys| && keys[i].keyId == id && keys[i].epoch <= EpochAt(t, seconds) <= keys[i].epoch + 1
  }

  lemma {:induction false} ExpiryCoversDeclarations(importKey: Importer, keys: seq<DocKey>, epoch: nat, seconds: nat, id: string, t: nat)
    requires seconds >= 1 && epoch <= EpochAt(t, seconds)
    requires ParseKeys(importKey, keys, epoch, seconds).Some?
    ensures var p := ParseKeys(importKey, keys, epoch, seconds).value;
            (id in p.keys && t < p.keys[id].expiresAt) <==> DeclaredFor(keys, id, t, seconds)
  {
    if keys != [] {
      var n := |keys| - 1;
      var k := keys[n];
      ExpiryCoversDeclarations(importKey, keys[..n], epoch, seconds, id, t);
      ExpiryIsNextEpoch(k.epoch, seconds, t);
      assert DeclaredFor(keys, id, t, seconds) <==>
               DeclaredFor(keys[..n], id, t, seconds) || (k.keyId == id && k.epoch <= EpochAt(t, seconds) <= k.epoch + 1) by {
        if DeclaredFor(keys[..n], id, t, seconds) {
          var i :| 0 <= i < n && keys[..n][i].keyId == id && keys[..n][i].epoch <= EpochAt(t, seconds) <= keys[..n][i].epoch + 1;
          assert keys[i].keyId == id;
        }
      }
    }
  }

  /**
   A key of a parsed document is unexpired at a later time `t` if and only if the document declares it
   for an epoch e with e <= epoch(t) <= e + 1.
   */
  lemma KeyUsableExactlyWhileDeclared(importKey: Importer, doc: Document, t0: nat, t: nat, id: string)
    requires t0 <= t && Parse(importKey, doc, t0).Some?
    ensures var keys := Parse(importKey, doc, t0).value;
            (id in keys && t < keys[id].expiresAt) <==> DeclaredFor(doc.keys, id, t, doc.epochSeconds)
  {
    EpochMonotone(t0, t, doc.epochSeconds);
    ExpiryCoversDeclarations(importKey, doc.keys, EpochAt(t0, doc.epochSeconds), doc.epochSeconds, id, t);
  }

  /** A parsed document names each of its keys once per epoch, current epoch included. */
  lemma {:induction false} ParsedEpochs(importKey: Importer, keys: seq<DocKey>, epoch: nat, seconds: nat)
    requires ParseKeys(importKey, keys, epoch, seconds).Some?
    ensures forall i :: 0 <= i < |keys| ==> keys[i].epoch == epoch || keys[i].epoch == epoch - 1
    ensures forall i, j :: 0 <= i < j < |keys| ==> keys[i].epoch != keys[j].epoch
    ensures forall e :: e in ParseKeys(importKey, keys, epoch, seconds).value.epochs <==> exists i :: 0 <= i < |keys| && keys[i].epoch == e
  {
    if keys != [] {
      var n := |keys| - 1;
      ParsedEpochs(importKey, keys[..n], epoch, seconds);
      var before := ParseKeys(importKey, keys[..n], epoch, seconds).value.epochs;
      assert forall i :: 0 <= i < n ==> keys[..n][i].epoch == keys[i].epoch;
      forall i | 0 <= i < n ensures keys[i].epoch in before {
        assert keys[..n][i].epoch == keys[i].epoch;
      }
    }
  }

  /**
   The relay's window is the issuer's. If the issuer published distinct keys, one per epoch, and the relay
   took the document in at `t0`, then at any later time the relay accepts the key of epoch e exactly
   when the issuer's own rule calls e live.
   */
  lemma RelayAcceptsExactlyLiveEpochs(importKey: Importer, doc: Document, t0: nat, t: nat, i: nat)
    requires t0 <= t && Parse(importKey, doc, t0).Some? && i < |doc.keys|
    requires SafeNat(doc.keys[i].epoch)
    requires forall j :: 0 <= j < |doc.keys| && j != i ==> doc.keys[j].keyId != doc.keys[i].keyId
    ensures var keys, id := Parse(importKey, doc, t0).value, doc.keys[i].keyId;
            id in keys && t < keys[id].expiresAt <==> IsLive(doc.keys[i].epoch, EpochAt(t, doc.epochSeconds))
  {
    KeyUsableExactlyWhileDeclared(importKey, doc, t0, t, doc.keys[i].keyId);
  }

  // ----- The cache -----

  datatype Lookup = Found(entry: Entry) | Unknown | Unavailable

  class IssuerKeyCache {
    const ttlMs: int
    const backoffMs: int
    const haveUrl: bool
    const importKey: Importer
    var keys: map<string, Entry>
    var refreshedAt: int
    var nextAttempt: int
    var pending: bool
    /** The document the keys came from and when it was parsed, the start of every fetch, how many have
        ended, and the latest clock reading. */
    ghost var source: Option<(Document, nat)>
    ghost var starts: seq<int>
    ghost var ended: nat
    ghost var clock: nat

    ghost predicate Valid()
      reads this
    {
      && backoffMs >= 1
      && keys == KeysOf(importKey, source)
      && (source.Some? ==> source.value.1 <= clock && Parse(importKey, source.value.0, source.value.1).Some?)
      && |starts| == ended + (if pending then 1 else 0)
      && (forall i :: 0 <= i < |starts| - 1 ==> starts[i] + backoffMs <= starts[i + 1])
      && (starts != [] ==> starts[|starts| - 1] + backoffMs == nextAttempt)
    }

    constructor (ttlMs: int, backoffMs: int, haveUrl: bool, importKey: Importer)
      requires ttlMs >= 1 && backoffMs >= 1
      ensures Valid() && keys == map[] && !pending && starts == []
    {
      this.ttlMs, this.backoffMs, this.haveUrl, this.importKey := ttlMs, backoffMs, haveUrl, importKey;
      keys, refreshedAt, nextAttempt, pending := map[], 0, 0, false;
      source, starts, ended, clock := None, [], 0, 0;
    }

    /** `refresh`: joins the fetch in progress, waits out the back-off, or starts the next fetch. The clock
        is read for the test and again for the assignment. */
    method Refresh(now: nat, later: nat) returns (started: bool)
      requires Valid() && clock <= now <= later
      modifies this
      ensures Valid() && clock == later && keys == old(keys) && source == old(source) && ended == old(ended)
      ensures started <==> !old(pending) && haveUrl && now >= old(nextAttempt)
      ensures starts == if started then old(starts) + [later] else old(starts)
      ensures pending == (old(pending) || started)
    {
      clock := later;
      if pending { return false; }
      if !haveUrl || now < nextAttempt { return false; }
      nextAttempt := later + backoffMs;
      pending := true;
      starts := starts + [later];
      return true;
    }

    /** The fetch settles, with a document or without; only a valid document replaces the keys. */
    method FetchSettled(doc: Option<Document>, now: nat)
      requires Valid() && pending && clock <= now
      modifies this
      ensures Valid() && !pending && clock == now && starts == old(starts) && ended == old(ended) + 1
      ensures doc.Some? && Parse(importKey, doc.value, now).Some? ==>
                Some(keys) == Parse(importKey, doc.value, now) && source == Some((doc.value, now)) && refreshedAt == now
      ensures doc.None? || Parse(importKey, doc.value, now).None? ==>
                keys == old(keys) && source == old(source) && refreshedAt == old(refreshedAt)
    {
      clock := now;
      if doc.Some? {
        var parsed := ParseDocument(importKey, doc.value, now);
        if parsed.Some? {
          keys, refreshedAt := parsed.value, now;
          source := Some((doc.value, now));
        }
      }
      pending := false;
      ended := ended + 1;
    }

    /**
     The end of `get`, with its two clock readings. A key handed out was declared for an epoch that
     covers the first, and every such key of the current document is handed out; the cache is
     unavailable exactly when it hands out none and holds no key unexpired at the second.
     */
    method Answer(keyId: string, now: nat, later: nat) returns (r: Lookup)
      requires Valid() && clock <= now <= later
      modifies `clock
      ensures Valid() && clock == later
      ensures r.Found? <==> keyId in keys && now < keys[keyId].expiresAt
      ensures r.Found? <==> source.Some? && DeclaredFor(source.value.0.keys, keyId, now, Seconds(source.value.0))
      ensures r.Found? ==> r.entry == keys[keyId]
      ensures r.Unavailable? <==> !r.Found? && forall k :: k in keys ==> later >= keys[k].expiresAt
    {
      clock := later;
      if source.Some? {
        KeyUsableExactlyWhileDeclared(importKey, source.value.0, source.value.1, now, keyId);
      }
      if keyId in keys && now < keys[keyId].expiresAt { return Found(keys[keyId]); }
      if !exists k :: k in keys && later < keys[k].expiresAt { return Unavailable; }
      return Unknown;
    }

    /** One turn of another call or of its fetch. */
    method RunTurn(turn: Turn)
      requires Valid() && clock <= Start(turn) <= End(turn)
      modifies this
      ensures Valid() && clock <= End(turn) && old(starts) <= starts
      ensures Provenance(source, old(source), [turn])
      ensures turn.Settles? ==> !pending && starts == old(starts)
      ensures turn.Refreshes? ==> starts == old(starts) + (if old(CanStart(turn.now)) then [turn.later] else []) && source == old(source)
      ensures turn.Settles? ==> source == if old(pending) && Accepts(importKey, turn) then Some((turn.doc.value, turn.at)) else old(source)
    {
      match turn
      case Refreshes(now, later) =>
        var started := Refresh(now, later);
      case Settles(doc, at) =>
        if pending { FetchSettled(doc, at); }
        assert [turn][0] == turn;
    }

    /** Turns of other calls, in the order of their clock readings. */
    method RunOthers(turns: seq<Turn>, until: nat)
      requires Valid() && InOrder(turns, clock, until)
      modifies this
      ensures Valid() && clock <= until && old(starts) <= starts
      ensures Provenance(source, old(source), turns)
      ensures turns == [] ==> starts == old(starts) && pending == old(pending)
    {
      for i := 0 to |turns|
        invariant Valid() && InOrder(turns[i..], clock, until) && old(starts) <= starts
        invariant Provenance(source, old(source), turns[..i])
        invariant turns == [] ==> starts == old(starts) && pending == old(pending)
      {
        assert turns[i..][0] == turns[i] && turns[i..][1..] == turns[i + 1..];
        ghost var mid := source;
        RunTurn(turns[i]);
        InOrderLater(turns[i + 1..], End(turns[i]), clock, until);
        ProvenanceChains(source, mid, old(source), turns[..i], [turns[i]]);
        assert turns[..i + 1] == turns[..i] + [turns[i]];
      }
      assert turns[..|turns|] == turns && turns[|turns|..] == [];
    }

    /** A refresh tested at this time starts a fetch. */
    predicate CanStart(test: int)
      reads this
    {
      !pending && haveUrl && test >= nextAttempt
    }

    /**
     `await refresh()`: joins or starts a fetch if it may, and is resumed after that fetch has ended. A fetch is
     started exactly when none is under way, there is a URL and the back-off is over; and when a fetch is
     awaited and brings a valid document, that is the one held, unless another call has fetched a later one.
     */
    method AwaitRefresh(test: nat, assign: nat, settled: Turn, others: seq<Turn>, until: nat)
      requires Valid() && clock <= test <= assign && settled.Settles? && InOrder([settled] + others, assign, until)
      modifies this
      ensures Valid() && clock <= until && old(starts) <= starts
      ensures Provenance(source, old(source), [settled] + others)
      ensures old(CanStart(test)) ==> old(starts) + [assign] <= starts
      ensures others == [] ==> starts == old(starts) + (if old(CanStart(test)) then [assign] else [])
      ensures old(pending || CanStart(test)) && Accepts(importKey, settled) ==>
                Provenance(source, Some((settled.doc.value, settled.at)), others)
      ensures others == [] && !(old(pending || CanStart(test)) && Accepts(importKey, settled)) ==> source == old(source)
    {
      var started := Refresh(test, assign);
      assert ([settled] + others)[1..] == others;
      RunTurn(settled);
      InOrderLater(others, End(settled), clock, until);
      ghost var mid := source;
      RunOthers(others, until);
      ProvenanceChains(source, mid, old(source), [settled], others);
    }

    /**
     `get` from call to return. `t` are the clock readings of its own steps in order, `settled` is how the
     fetch it waits for ends, if it waits for one, and `others` are the turns that other calls take
     while it is suspended. Whatever they do:
     the key is handed out if and only if the document then held declares it for an epoch covering the
     reading at return; that document is the one held before or one fetched during the wait; a call
     that does not wait starts no fetch, changes nothing, and hands out the key unless it expires
     between its readings; a call that waits starts a fetch exactly when it may, and a valid document it waited
     for is the one it answers from unless a later one has come; and if no valid document arrives,
     nothing outlives its old expiry.
     */
    method Get(keyId: string, t: Readings, settled: Turn, others: seq<Turn>) returns (r: Lookup, waited: bool)
      requires Valid() && clock <= t.expiry <= t.age <= t.test <= t.assign && t.answer <= t.any
      requires settled.Settles? && InOrder([settled] + others, t.assign, t.answer)
      modifies this
      ensures Valid() && clock == t.any && old(starts) <= starts
      ensures r.Found? <==> source.Some? && DeclaredFor(source.value.0.keys, keyId, t.answer, Seconds(source.value.0))
      ensures r.Found? ==> keyId in keys && r.entry == keys[keyId]
      ensures r.Unavailable? <==> !r.Found? && forall k :: k in keys ==> t.any >= keys[k].expiresAt
      ensures Provenance(source, old(source), [settled] + others)
      ensures !waited <==> keyId in old(keys) && t.expiry < old(keys)[keyId].expiresAt && t.age - old(refreshedAt) < ttlMs
      ensures !waited ==> source == old(source) && starts == old(starts) && pending == old(pending)
      ensures !waited && t.answer == t.expiry ==> r.Found?
      ensures waited && old(CanStart(t.test)) ==> old(starts) + [t.assign] <= starts
      ensures waited && old(pending || CanStart(t.test)) && Accepts(importKey, settled) ==>
                Provenance(source, Some((settled.doc.value, settled.at)), others)
      ensures waited && old(pending || CanStart(t.test)) && Accepts(importKey, settled) && others == [] ==>
                (r.Found? <==> DeclaredFor(settled.doc.value.keys, keyId, t.answer, Seconds(settled.doc.value)))
      ensures source == old(source) ==> keys == old(keys) && (r.Found? <==> keyId in old(keys) && t.answer < old(keys)[keyId].expiresAt)
    {
      waited := keyId !in keys || t.expiry >= keys[keyId].expiresAt || t.age - refreshedAt >= ttlMs;
      InOrderEnds([settled] + others, t.assign, t.answer);
      if waited { AwaitRefresh(t.test, t.assign, settled, others, t.answer); }
      r := Answer(keyId, t.answer, t.any);
    }
  }

  /** What happens while a lookup is suspended. */
  datatype Turn = Refreshes(now: nat, later: nat) | Settles(doc: Option<Document>, at: nat)

  function Start(turn: Turn): nat {
    if turn.Refreshes? then turn.now else turn.at
  }

  function End(turn: Turn): nat {
    if turn.Refreshes? then turn.later else turn.at
  }

  /** The fetch brings a document that is valid when it settles. */
  predicate Accepts(importKey: Importer, turn: Turn) {
    turn.Settles? && turn.doc.Some? && Parse(importKey, turn.doc.value, turn.at).Some?
  }

  /** The clock readings of one lookup. */
  datatype Readings = Readings(expiry: nat, age: nat, test: nat, assign: nat, answer: nat, any: nat)

  ghost predicate InOrder(turns: seq<Turn>, from: nat, until: nat) {
    if turns == [] then from <= until
    else from <= Start(turns[0]) <= End(turns[0]) && InOrder(turns[1..], End(turns[0]), until)
  }

  lemma InOrderLater(turns: seq<Turn>, from: nat, earlier: nat, until: nat)
    requires InOrder(turns, from, until) && earlier <= from
    ensures InOrder(turns, earlier, until)
  {
  }

  lemma {:induction false} InOrderEnds(turns: seq<Turn>, from: nat, until: nat)
    requires InOrder(turns, from, until)
    ensures from <= until
  {
    if turns != [] { InOrderEnds(turns[1..], End(turns[0]), until); }
  }

  /** The document held now was held before, or was fetched in one of the turns. */
  ghost predicate Provenance(now: Option<(Document, nat)>, before: Option<(Document, nat)>, turns: seq<Turn>) {
    now == before || exists i :: 0 <= i < |turns| && turns[i].Settles? && turns[i].doc.Some? && now == Some((turns[i].doc.value, turns[i].at))
  }

  lemma ProvenanceChains(now: Option<(Document, nat)>, mid: Option<(Document, nat)>, before: Option<(Document, nat)>,
                         a: seq<Turn>, b: seq<Turn>)
    requires Provenance(mid, before, a) && Provenance(now, mid, b)
    ensures Provenance(now, before, a + b)
  {
    var all := a + b;
    assert forall i :: 0 <= i < |a| ==> all[i] == a[i];
    assert forall i :: 0 <= i < |b| ==> all[|a| + i] == b[i];
  }

  /** The keys of the document that a cache holds. */
  function KeysOf(importKey: Importer, source: Option<(Document, nat)>): map<string, Entry> {
    if source.Some? && Parse(importKey, source.value.0, source.value.1).Some?
    then Parse(importKey, source.value.0, source.value.1).value else map[]
  }

  /** The epoch length of a document, as parsing guarantees it to be positive. */
  function Seconds(doc: Document): (s: nat)
    ensures s >= 1
    ensures HeaderOk(doc) ==> s == doc.epochSeconds
  {
    if doc.epochSeconds >= 1 then doc.epochSeconds else 1
  }
}
