/**
 The bounded insertion order of the commons cache (commons-cache/server.js, `cacheSet`): deleting a
 key before setting it moves the key to the back, and eviction takes from the front.
 */
module RecencyOrder {
  type Key = string

  function Without(s: seq<Key>, k: Key): seq<Key> {
    if s == [] then [] else if s[0] == k then Without(s[1..], k) else [s[0]] + Without(s[1..], k)
  }

  /** The last `max` elements. */
  function Last(s: seq<Key>, max: nat): seq<Key> {
    if |s| <= max then s else s[|s| - max..]
  }

  /** The order after `cacheSet`. */
  function Put(order: seq<Key>, k: Key, max: nat): seq<Key> {
    Last(Without(order, k) + [k], max)
  }

  ghost predicate Distinct(s: seq<Key>) {
    forall i, j {:trigger s[i], s[j]} :: 0 <= i < j < |s| ==> s[i] != s[j]
  }

  /** The keys of a write log, each once, in the order of their last writes. */
  function LastWrites(log: seq<Key>): seq<Key> {
    if log == [] then []
    else Without(LastWrites(log[..|log| - 1]), log[|log| - 1]) + [log[|log| - 1]]
  }

  // ----- Removal -----

  lemma {:induction false} WithoutMembers(s: seq<Key>, k: Key)
    ensures k !in Without(s, k)
    ensures forall x :: x in Without(s, k) <==> x in s && x != k
    ensures |Without(s, k)| <= |s|
  {
    if s != [] {
      WithoutMembers(s[1..], k);
      assert s == [s[0]] + s[1..];
    }
  }

  lemma {:induction false} WithoutConcat(a: seq<Key>, b: seq<Key>, k: Key)
    ensures Without(a + b, k) == Without(a, k) + Without(b, k)
  {
    if a == [] {
      assert a + b == b;
    } else {
      assert (a + b)[1..] == a[1..] + b;
      WithoutConcat(a[1..], b, k);
    }
  }

  lemma {:induction false} WithoutAbsent(s: seq<Key>, k: Key)
    requires k !in s
    ensures Without(s, k) == s
  {
    if s != [] { WithoutAbsent(s[1..], k); }
  }

  /** Each key loses at most its one occurrence. */
  lemma {:induction false} WithoutDistinct(s: seq<Key>, k: Key)
    requires Distinct(s)
    ensures Distinct(Without(s, k)) && |Without(s, k)| == if k in s then |s| - 1 else |s|
  {
    if s != [] {
      var rest := s[1..];
      assert Distinct(rest) by {
        forall i, j | 0 <= i < j < |rest| ensures rest[i] != rest[j] { assert rest[i] == s[i + 1] && rest[j] == s[j + 1]; }
      }
      WithoutDistinct(rest, k);
      WithoutMembers(rest, k);
      assert forall j :: 0 <= j < |rest| ==> rest[j] == s[j + 1];
      if s[0] == k { WithoutAbsent(rest, k); } else { DistinctCons(s[0], Without(rest, k)); }
    }
  }

  lemma {:induction false} DistinctCons(x: Key, s: seq<Key>)
    requires Distinct(s) && x !in s
    ensures Distinct([x] + s)
  {
  }

  lemma {:induction false} DistinctSnoc(s: seq<Key>, x: Key)
    requires Distinct(s) && x !in s
    ensures Distinct(s + [x])
  {
  }

  lemma {:induction false} LastWritesDistinct(log: seq<Key>)
    ensures Distinct(LastWrites(log))
  {
    if log != [] {
      var init, k := LastWrites(log[..|log| - 1]), log[|log| - 1];
      LastWritesDistinct(log[..|log| - 1]);
      WithoutDistinct(init, k);
      WithoutMembers(init, k);
      DistinctSnoc(Without(init, k), k);
    }
  }

  // ----- What the order means -----

  /** Where a key was last written. */
  function LastIndex(log: seq<Key>, k: Key): (i: nat)
    requires k in log
    ensures i < |log| && log[i] == k && forall j :: i < j < |log| ==> log[j] != k
  {
    if log[|log| - 1] == k then |log| - 1
    else
      assert log == log[..|log| - 1] + [log[|log| - 1]];
      LastIndex(log[..|log| - 1], k)
  }

  lemma {:induction false} LastIndexSnoc(log: seq<Key>, k: Key, x: Key)
    ensures k != x && k in log + [x] ==> k in log && LastIndex(log + [x], k) == LastIndex(log, k)
    ensures LastIndex(log + [x], x) == |log|
  {
  }

  /**
   LastWrites against the log itself: exactly the keys written, no key twice, and one key stands
   before another exactly when its last write came first.
   */
  lemma {:induction false} LastWritesMeaning(log: seq<Key>)
    ensures Distinct(LastWrites(log))
    ensures forall k :: k in LastWrites(log) <==> k in log
    ensures ByLastWrite(LastWrites(log), log)
  {
    LastWritesDistinct(log);
    if log != [] {
      var init, x := log[..|log| - 1], log[|log| - 1];
      var before := LastWrites(init);
      LastWritesMeaning(init);
      WithoutMembers(before, x);
      assert log == init + [x];
      WithoutKeepsOrder(before, x, init);
      var kept := Without(before, x);
      var all := kept + [x];
      forall i, j | 0 <= i < j < |all|
        ensures Before(log, all[i], all[j])
      {
        assert all[i] == kept[i] && kept[i] in kept;
        LastIndexSnoc(init, all[i], x);
        LastIndexSnoc(init, all[j], x);
        if j < |kept| { assert all[j] == kept[j] && kept[j] in kept; }
      }
    }
  }

  /** `a` was last written before `b` was. */
  ghost predicate Before(log: seq<Key>, a: Key, b: Key) {
    a in log && b in log && LastIndex(log, a) < LastIndex(log, b)
  }

  ghost predicate ByLastWrite(s: seq<Key>, log: seq<Key>) {
    forall i, j :: 0 <= i < j < |s| ==> Before(log, s[i], s[j])
  }

  lemma {:induction false} WithoutKeepsOrder(s: seq<Key>, k: Key, log: seq<Key>)
    requires ByLastWrite(s, log)
    ensures ByLastWrite(Without(s, k), log)
  {
    if s != [] {
      var rest := s[1..];
      assert ByLastWrite(rest, log) by {
        forall i, j | 0 <= i < j < |rest|
          ensures Before(log, rest[i], rest[j])
        { assert rest[i] == s[i + 1] && rest[j] == s[j + 1]; }
      }
      WithoutKeepsOrder(rest, k, log);
      if s[0] != k {
        var kept := Without(rest, k);
        WithoutMembers(rest, k);
        forall x | x in kept ensures Before(log, s[0], x) {
          assert x in Without(rest, k) && x in rest;
          var m :| 0 <= m < |rest| && rest[m] == x;
          assert s[m + 1] == x;
        }
        ConsKeepsOrder(s[0], kept, log);
      }
    }
  }

  lemma {:induction false} ConsKeepsOrder(x: Key, s: seq<Key>, log: seq<Key>)
    requires ByLastWrite(s, log)
    requires forall y :: y in s ==> Before(log, x, y)
    ensures ByLastWrite([x] + s, log)
  {
  }

  // ----- The bound -----

  /** Evicting first does not change what a later write leaves. */
  lemma {:induction false} PutOnLast(order: seq<Key>, k: Key, max: nat)
    requires Distinct(order)
    ensures Put(Last(order, max), k, max) == Put(order, k, max)
  {
    if |order| > max {
      var cut := |order| - max;
      var a, b := order[..cut], order[cut..];
      assert order == a + b;
      WithoutConcat(a, b, k);
      SliceDistinct(order, cut);
      WithoutDistinct(a, k);
      WithoutDistinct(b, k);
      assert forall j :: 0 <= j < |b| ==> b[j] == order[cut + j];
      var wa, wb := Without(a, k), Without(b, k);
      assert wa + wb + [k] == wa + (wb + [k]);
      LastOfConcat(wa, wb + [k], max);
    }
  }

  lemma {:induction false} SliceDistinct(s: seq<Key>, cut: nat)
    requires Distinct(s) && cut <= |s|
    ensures Distinct(s[..cut]) && Distinct(s[cut..])
  {
  }

  lemma {:induction false} LastOfConcat(a: seq<Key>, b: seq<Key>, max: nat)
    requires |b| >= max || a == []
    ensures Last(a + b, max) == Last(b, max)
  {
  }

  /** One more write: the bounded order stays the end of the full recency order. */
  lemma {:induction false} PutIsRecency(log: seq<Key>, k: Key, max: nat)
    ensures Put(Last(LastWrites(log), max), k, max) == Last(LastWrites(log + [k]), max)
  {
    LastWritesDistinct(log);
    PutOnLast(LastWrites(log), k, max);
    assert (log + [k])[..|log|] == log;
  }
}
