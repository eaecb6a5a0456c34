/**
 The feed cache as an object that its turns update in place (commons-cache/server.js): the `cache`
 and `inflight` maps, the entry objects with their flag, and the fetches and calls under way. Each
 method is proved to perform exactly the turn of `CommonsCache` that models it.
 */
module FeedCache {
  import opened Prelude
  import opened RecencyOrder
  import opened CommonsCache

  class Cache {
    const config: Config
    var now: int
    var cache: seq<Slot>
    var inflight: map<Key, nat>
    var entries: seq<Entry>
    var fetches: seq<Fetch>
    var calls: seq<Call>
    /** The keys written and the answers given so far. */
    ghost var writes: seq<Key>
    ghost var answers: seq<Answer>

    ghost function View(): State
      reads this
    {
      State(now, Keys(cache), Index(cache), inflight, entries, fetches, calls, writes, answers)
    }

    ghost predicate Valid()
      reads this
    {
      Inv(config, View())
    }

    constructor (config: Config)
      ensures this.config == config && View() == INIT && Valid()
    {
      this.config := config;
      now, cache, inflight, entries := 0, [], map[], [];
      fetches, calls, writes, answers := [], [], [], [];
    }

    /** `cacheSet` on the ordered map: delete, set, and evict from the front while the map is too large. */
    method SetKey(key: Key, id: nat)
      requires Distinct(Keys(cache))
      modifies this`cache
      ensures Keys(cache) == Put(Keys(old(cache)), key, config.maxEntries)
      ensures Index(cache) == map k | k in Keys(cache) && (k == key || k in Index(old(cache))) ::
                                if k == key then id else Index(old(cache))[k]
    {
      Rewritten(cache, key, id);
      cache := Delete(cache, key);
      cache := cache + [Slot(key, id)];
      ghost var full := Keys(cache);
      while |cache| > config.maxEntries
        invariant |cache| <= |full| && Keys(cache) == full[|full| - |cache|..] && Distinct(Keys(cache))
        invariant |cache| == |full| || |cache| >= config.maxEntries
        invariant forall k {:trigger Lookup(cache, k)} :: k in Keys(cache) ==>
                    Lookup(cache, k) == if k == key then Some(id) else Lookup(old(cache), k)
      {
        DropFront(cache);
        cache := cache[1..];
      }
      SetIndex(old(cache), key, id, cache);
    }

    method CacheSet(e: Entry)
      requires Distinct(Keys(cache))
      modifies this
      ensures View() == Store(config, old(View()), e)
    {
      SetKey(KeyOf(e.req), |entries|);
      entries := entries + [e];
      writes := writes + [KeyOf(e.req)];
    }

    method GoCold(r: Req)
      modifies this
      ensures View() == CommonsCache.GoCold(old(View()), r)
    {
      var key := KeyOf(r);
      var leader := key !in inflight;
      if leader {
        fetches := fetches + [Fetch(r, Cold, None, false)];
        inflight := inflight[key := |fetches| - 1];
      }
      calls := calls + [Waiting(r, inflight[key], leader)];
    }

    /** `getCachedFeed` up to its await; without an answer, the last call waits. */
    method GetCachedFeed(r: Req) returns (answer: Option<Answer>)
      requires Valid() && ValidReq(r)
      modifies this
      ensures View() == Get(config, old(View()), r) && Valid()
      ensures Recorded(answer, old(answers), answers)
    {
      GetKeepsInv(config, View(), r);
      if KeyOf(r) in Index(cache) { EntryFor(config, View(), r, Index(cache)[KeyOf(r)]); }
      answer := LookUp(r, KeyOf(r));
    }

    method LookUp(r: Req, key: Key) returns (answer: Option<Answer>)
      requires key == KeyOf(r) && (key in Index(cache) ==> Index(cache)[key] < |entries|)
      modifies this
      ensures View() == Get(config, old(View()), r)
      ensures Recorded(answer, old(answers), answers)
    {
      var found := Lookup(cache, key);
      LookupIsIndex(cache, key);
      if found.Some? {
        var i := found.value;
        var e := entries[i];
        var age := now - e.fetchedAt;
        if age < config.ttl {
          answer := Some(Served(r, HIT, e.body, e.contentType, age, e.source));
          answers := answers + [answer.value];
          return;
        }
        if age < config.ttl + config.swr {
          if !e.revalidating {
            entries := entries[i := e.(revalidating := true)];
            fetches := fetches + [Fetch(r, Refresh(i), None, false)];
          }
          answer := Some(Served(r, STALE, e.body, e.contentType, age, e.source));
          answers := answers + [answer.value];
          return;
        }
      }
      GoCold(r);
      answer := None;
    }

    /** The handlers that run when a fetch settles. */
    method FetchSettled(f: nat, up: Upstream)
      requires Valid() && f < |fetches| && fetches[f].result.None?
      modifies this
      ensures View() == Settle(config, old(View()), f, up) && Valid()
    {
      SettleKeepsInv(config, View(), f, up);
      LastIsDistinct(writes, config.maxEntries);
      var x := fetches[f];
      if x.purpose.Cold? {
        fetches := fetches[f := x.(result := Some(up), finished := true)];
        inflight := inflight - {KeyOf(x.req)};
      } else {
        fetches := fetches[f := x.(result := Some(up))];
        if Good(up) {
          CacheSet(Entry(x.req, up.body, config.safeType(up.contentType), now, false, f));
        }
      }
    }

    /** `finally`: the flag of the refreshed entry is reset. */
    method RefreshFinished(f: nat)
      requires Valid() && Enabled(View(), ResetE(f))
      modifies this
      ensures View() == ResetFlag(old(View()), f) && Valid()
    {
      ResetKeepsInv(config, View(), f);
      var i := fetches[f].purpose.entry;
      entries := entries[i := entries[i].(revalidating := false)];
      fetches := fetches[f := fetches[f].(finished := true)];
    }

    /** `getCachedFeed` after its await. */
    method CallResumed(i: nat) returns (answer: Answer)
      requires Valid() && Enabled(View(), ResumeE(i))
      modifies this
      ensures View() == Resume(config, old(View()), i) && Valid()
      ensures Recorded(Some(answer), old(answers), answers)
    {
      ResumeKeepsInv(config, View(), i);
      LastIsDistinct(writes, config.maxEntries);
      var w := calls[i];
      var up := fetches[w.fetch].result.value;
      var req := fetches[w.fetch].req;
      calls := calls[i := Returned];
      if Good(up) {
        var safe := config.safeType(up.contentType);
        if w.leader {
          CacheSet(Entry(req, up.body, safe, now, false, w.fetch));
        }
        answer := Served(w.req, if w.leader then MISS else COALESCED, up.body, safe, 0, w.fetch);
      } else {
        answer := Unavailable(w.req, MISS, w.fetch);
      }
      answers := answers + [answer];
    }
  }

  /** The answer given, if any, is the one recorded. */
  ghost predicate Recorded(answer: Option<Answer>, before: seq<Answer>, after: seq<Answer>) {
    after == if answer.Some? then before + [answer.value] else before
  }

  // ----- An insertion-ordered map -----

  /** One binding of a JavaScript Map, which keeps them in the order of insertion. */
  datatype Slot = Slot(key: Key, entry: nat)

  ghost function Keys(cache: seq<Slot>): (keys: seq<Key>)
    ensures |keys| == |cache|
  {
    if cache == [] then [] else [cache[0].key] + Keys(cache[1..])
  }

  /** Map.prototype.get. */
  function Lookup(cache: seq<Slot>, key: Key): Option<nat> {
    if cache == [] then None else if cache[0].key == key then Some(cache[0].entry) else Lookup(cache[1..], key)
  }

  /** Map.prototype.delete; a key has at most one binding. */
  function Delete(cache: seq<Slot>, key: Key): seq<Slot> {
    if cache == [] then [] else if cache[0].key == key then Delete(cache[1..], key) else [cache[0]] + Delete(cache[1..], key)
  }

  /** The bindings as a map. */
  ghost function Index(cache: seq<Slot>): map<Key, nat> {
    map k | k in Keys(cache) && Lookup(cache, k).Some? :: Lookup(cache, k).value
  }

  lemma {:induction false} LookupFinds(cache: seq<Slot>, key: Key)
    ensures Lookup(cache, key).Some? <==> key in Keys(cache)
  {
    if cache != [] { LookupFinds(cache[1..], key); }
  }

  lemma {:induction false} LookupIsIndex(cache: seq<Slot>, key: Key)
    ensures Lookup(cache, key) == if key in Index(cache) then Some(Index(cache)[key]) else None
    ensures key in Index(cache) <==> key in Keys(cache)
  {
    LookupFinds(cache, key);
  }

  lemma {:induction false} DeleteKeys(cache: seq<Slot>, key: Key)
    ensures Keys(Delete(cache, key)) == Without(Keys(cache), key)
  {
    if cache != [] {
      var kept := Delete(cache[1..], key);
      DeleteKeys(cache[1..], key);
      assert Keys(cache)[1..] == Keys(cache[1..]);
      assert ([cache[0]] + kept)[1..] == kept;
    }
  }

  lemma {:induction false} DeleteLookup(cache: seq<Slot>, key: Key, k: Key)
    ensures Lookup(Delete(cache, key), k) == if k == key then None else Lookup(cache, k)
  {
    if cache != [] {
      var kept := Delete(cache[1..], key);
      DeleteLookup(cache[1..], key, k);
      assert ([cache[0]] + kept)[1..] == kept;
    }
  }

  lemma {:induction false} AppendSlot(cache: seq<Slot>, key: Key, id: nat, k: Key)
    ensures Keys(cache + [Slot(key, id)]) == Keys(cache) + [key]
    ensures Lookup(cache, key).None? ==> Lookup(cache + [Slot(key, id)], k) == if k == key then Some(id) else Lookup(cache, k)
  {
    var longer := cache + [Slot(key, id)];
    if cache != [] {
      AppendSlot(cache[1..], key, id, k);
      assert longer[1..] == cache[1..] + [Slot(key, id)];
    }
  }

  /** Dropping the oldest binding changes no other. */
  lemma {:induction false} DropFront(cache: seq<Slot>)
    requires cache != [] && Distinct(Keys(cache))
    ensures Keys(cache[1..]) == Keys(cache)[1..] && Distinct(Keys(cache[1..]))
    ensures forall k :: k in Keys(cache[1..]) ==> Lookup(cache[1..], k) == Lookup(cache, k)
  {
    var keys := Keys(cache);
    assert keys[1..] == Keys(cache[1..]);
    SliceDistinct(keys, 1);
    forall k | k in keys[1..] ensures k != cache[0].key {
      var i :| 0 <= i < |keys[1..]| && keys[1..][i] == k;
      assert keys[i + 1] == k && keys[0] == cache[0].key;
    }
  }

  /** The bindings after delete and set. */
  lemma {:induction false} Rewritten(cache: seq<Slot>, key: Key, id: nat)
    requires Distinct(Keys(cache))
    ensures var full := Delete(cache, key) + [Slot(key, id)];
            && Keys(full) == Without(Keys(cache), key) + [key] && Distinct(Keys(full))
            && forall k {:trigger Lookup(full, k)} :: Lookup(full, k) == if k == key then Some(id) else Lookup(cache, k)
  {
    var kept := Delete(cache, key);
    var full := kept + [Slot(key, id)];
    DeleteKeys(cache, key);
    WithoutMembers(Keys(cache), key);
    WithoutDistinct(Keys(cache), key);
    DistinctSnoc(Without(Keys(cache), key), key);
    AppendSlot(kept, key, id, key);
    forall k ensures Lookup(full, k) == if k == key then Some(id) else Lookup(cache, k) {
      DeleteLookup(cache, key, key);
      DeleteLookup(cache, key, k);
      AppendSlot(kept, key, id, k);
    }
  }

  /** Bindings that agree with a set on the keys that are left are that set's map. */
  lemma {:induction false} SetIndex(before: seq<Slot>, key: Key, id: nat, after: seq<Slot>)
    requires forall k {:trigger Lookup(after, k)} :: k in Keys(after) ==> Lookup(after, k) == if k == key then Some(id) else Lookup(before, k)
    ensures Index(after) == map k | k in Keys(after) && (k == key || k in Index(before)) :: if k == key then id else Index(before)[k]
  {
    forall k | k in Keys(after) ensures k in Index(after) && (k == key || k in Index(before)) {
      LookupFinds(after, k);
      LookupFinds(before, k);
    }
  }

  lemma {:induction false} LastIsDistinct(log: seq<Key>, max: nat)
    ensures Distinct(Last(LastWrites(log), max))
  {
    var all := LastWrites(log);
    LastWritesDistinct(log);
    if |all| > max { SliceDistinct(all, |all| - max); }
  }
}
