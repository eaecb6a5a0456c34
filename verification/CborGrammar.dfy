/**
 What the CBOR decoder accepts, as a grammar of byte strings (section 3 of RFC 8949 with the
 restrictions of token-issuer/appattest.js): a head in any of its length forms, and then the content.
 The decoder returns a value exactly when the bytes spell it.
 */
module CborGrammar {
  import opened Prelude
  import opened Bytes
  import opened Cbor

  /** Any accepted form of a head: short, or with 1, 2, 4 or 8 bytes for a number below 2^32. */
  ghost predicate IsHead(h: seq<byte>, major: nat, n: nat) {
    && |h| >= 1 && h[0] as nat / 32 == major
    && var minor := h[0] as nat % 32;
       if minor < 24 then |h| == 1 && n == minor
       else minor <= 27 && |h| == 1 + Width(minor) && n == BigEndian(h[1..]) && n < 0x1_0000_0000
  }

  ghost predicate Spells(s: seq<byte>, v: Value, depth: nat)
    requires depth <= MAX_DEPTH + 1
    decreases MAX_DEPTH + 1 - depth, 0
  {
    depth <= MAX_DEPTH &&
    exists h, n: nat, body :: IsHead(h, MajorOf(v), n) && SpellsBody(body, v, n, depth) && s == h + body
  }

  /** The content of a value whose head has the number `n`. A map is what its pairs leave when set in turn. */
  ghost predicate SpellsBody(body: seq<byte>, v: Value, n: nat, depth: nat)
    requires depth <= MAX_DEPTH
    decreases MAX_DEPTH - depth, 3
  {
    match v
    case Int(_) => body == [] && NumberOf(v) == n
    case Bytes(b) => body == b && |b| == n
    case Text(b) => body == b && |b| == n
    case Arr(items) => |items| == n && exists parts :: SpellsItems(parts, items, depth + 1) && body == Flatten(parts)
    case Obj(entries) =>
      exists parts, pairs :: SpellsPairs(parts, pairs, depth + 1) && |pairs| == n && MapOf(pairs) == entries && body == Flatten(parts)
  }

  ghost predicate SpellsItems(parts: seq<seq<byte>>, items: seq<Value>, depth: nat)
    requires depth <= MAX_DEPTH + 1
    decreases MAX_DEPTH + 1 - depth, 2
  {
    |parts| == |items| && forall i {:trigger parts[i]} :: 0 <= i < |items| ==> Spells(parts[i], items[i], depth)
  }

  ghost predicate SpellsPairs(parts: seq<seq<byte>>, pairs: seq<Pair>, depth: nat)
    requires depth <= MAX_DEPTH + 1
    decreases MAX_DEPTH + 1 - depth, 2
  {
    |parts| == |pairs| && forall i {:trigger parts[i]} :: 0 <= i < |pairs| ==> SpellsPair(parts[i], pairs[i], depth)
  }

  ghost predicate SpellsPair(part: seq<byte>, e: Pair, depth: nat)
    requires depth <= MAX_DEPTH + 1
    decreases MAX_DEPTH + 1 - depth, 1
  {
    exists a, b :: Spells(a, e.key, depth) && Spells(b, e.val, depth) && part == a + b
  }

  // ----- What is spelled is read -----

  lemma {:induction false} AnyHeadBegins(buf: seq<byte>, depth: nat, h: seq<byte>, major: nat, n: nat)
    requires IsHead(h, major, n) && depth <= MAX_DEPTH
    ensures Begins(buf, depth, h, major, n)
  {
    forall p: nat | At(buf, p, h)
      ensures ReadItem(buf, p, depth) == ReadBody(buf, p + |h|, depth, major, n)
    {
      assert h[0] == buf[p];
      if |h| > 1 {
        AtSlice(buf, p, h);
        assert buf[p + 1..p + |h|] == buf[p..p + |h|][1..] == h[1..];
      }
      ItemIsBody(buf, p, depth, major, n, p + |h|);
    }
  }

  lemma {:induction false} SpelledReads(buf: seq<byte>, s: seq<byte>, v: Value, depth: nat)
    requires depth <= MAX_DEPTH + 1 && Spells(s, v, depth)
    ensures ItemReads(buf, depth, s, v, true)
    decreases MAX_DEPTH + 1 - depth, 0
  {
    var h, n: nat, body :| IsHead(h, MajorOf(v), n) && SpellsBody(body, v, n, depth) && s == h + body;
    AnyHeadBegins(buf, depth, h, MajorOf(v), n);
    match v
    case Int(k) =>
      assert h + [] == h;
      IntReads(buf, depth, h, k);
    case Bytes(b) => StringReads(buf, depth, h, b, false);
    case Text(b) => StringReads(buf, depth, h, b, true);
    case Arr(items) =>
      var parts :| SpellsItems(parts, items, depth + 1) && body == Flatten(parts);
      SpelledArrReads(buf, depth, h, items, parts);
    case Obj(entries) =>
      var parts, pairs :| SpellsPairs(parts, pairs, depth + 1) && |pairs| == n && MapOf(pairs) == entries && body == Flatten(parts);
      SpelledObjReads(buf, depth, h, pairs, parts);
  }

  lemma {:induction false} SpelledArrReads(buf: seq<byte>, depth: nat, h: seq<byte>, items: seq<Value>, parts: seq<seq<byte>>)
    requires depth <= MAX_DEPTH && SpellsItems(parts, items, depth + 1) && Begins(buf, depth, h, 4, |items|)
    ensures ItemReads(buf, depth, h + Flatten(parts), Arr(items), true)
    decreases MAX_DEPTH - depth, 1
  {
    var fits := seq(|items|, _ => true);
    forall i | 0 <= i < |items| ensures ItemReads(buf, depth + 1, parts[i], items[i], fits[i]) {
      SpelledReads(buf, parts[i], items[i], depth + 1);
    }
    ArrReads(buf, depth, h, items, parts, fits);
    assert false !in fits;
  }

  lemma {:induction false} SpelledObjReads(buf: seq<byte>, depth: nat, h: seq<byte>, pairs: seq<Pair>, parts: seq<seq<byte>>)
    requires depth <= MAX_DEPTH && SpellsPairs(parts, pairs, depth + 1) && Begins(buf, depth, h, 5, |pairs|)
    ensures ItemReads(buf, depth, h + Flatten(parts), Obj(MapOf(pairs)), true)
    decreases MAX_DEPTH - depth, 2
  {
    var fits := seq(|pairs|, _ => true);
    forall i | 0 <= i < |pairs| ensures PairReads(buf, depth + 1, parts[i], pairs[i], fits[i]) {
      SpelledPairReads(buf, depth + 1, parts[i], pairs[i]);
    }
    ObjReads(buf, depth, h, pairs, parts, fits);
    assert false !in fits;
  }

  lemma {:induction false} SpelledPairReads(buf: seq<byte>, depth: nat, part: seq<byte>, e: Pair)
    requires depth <= MAX_DEPTH + 1 && SpellsPair(part, e, depth)
    ensures PairReads(buf, depth, part, e, true)
    decreases MAX_DEPTH + 1 - depth, 1
  {
    var a, b :| Spells(a, e.key, depth) && Spells(b, e.val, depth) && part == a + b;
    SpelledReads(buf, a, e.key, depth);
    SpelledReads(buf, b, e.val, depth);
    PairFromItems(buf, depth, a, b, e, true, true);
  }

  // ----- What is read is spelled -----

  lemma {:induction false} HeadIsSpelled(buf: seq<byte>, pos: nat, n: nat, p: nat)
    requires pos < |buf| && ReadLength(buf, pos + 1, buf[pos] as nat % 32) == Ok((n, p))
    ensures pos < p <= |buf| && IsHead(buf[pos..p], buf[pos] as nat / 32, n)
  {
    assert buf[pos..p][1..] == buf[pos + 1..p];
  }

  lemma {:induction false} ReadIsSpelled(buf: seq<byte>, pos: nat, depth: nat)
    requires depth <= MAX_DEPTH + 1 && ReadItem(buf, pos, depth).Ok?
    ensures var (v, end) := ReadItem(buf, pos, depth).value; pos < end <= |buf| && Spells(buf[pos..end], v, depth)
    decreases MAX_DEPTH + 1 - depth, 0, 0
  {
    var (v, end) := ReadItem(buf, pos, depth).value;
    var (n, p) := ReadLength(buf, pos + 1, buf[pos] as nat % 32).value;
    HeadIsSpelled(buf, pos, n, p);
    BodyIsSpelled(buf, p, depth, buf[pos] as nat / 32, n);
    Between(buf, pos, p, end);
    assert IsHead(buf[pos..p], MajorOf(v), n) && SpellsBody(buf[p..end], v, n, depth);
  }

  lemma {:induction false} BodyIsSpelled(buf: seq<byte>, p: nat, depth: nat, major: nat, n: nat)
    requires depth <= MAX_DEPTH && p <= |buf| && ReadBody(buf, p, depth, major, n).Ok?
    ensures var (v, end) := ReadBody(buf, p, depth, major, n).value;
            p <= end <= |buf| && MajorOf(v) == major && SpellsBody(buf[p..end], v, n, depth)
    decreases MAX_DEPTH - depth, 2, 0
  {
    if major == 4 {
      var parts, items := ItemsAreSpelled(buf, p, depth + 1, n, []);
      assert [] + items == items;
    } else if major == 5 {
      var parts, pairs := PairsAreSpelled(buf, p, depth + 1, n, []);
      assert [] + pairs == pairs;
    }
  }

  lemma {:induction false} ItemsAreSpelled(buf: seq<byte>, pos: nat, depth: nat, n: nat, done: seq<Value>)
    returns (parts: seq<seq<byte>>, items: seq<Value>)
    requires depth <= MAX_DEPTH + 1 && pos <= |buf| && ReadItems(buf, pos, depth, n, done).Ok?
    ensures var (all, end) := ReadItems(buf, pos, depth, n, done).value;
            && pos <= end <= |buf| && all == done + items && |items| == n
            && SpellsItems(parts, items, depth) && buf[pos..end] == Flatten(parts)
    decreases MAX_DEPTH + 1 - depth, 1, n
  {
    parts, items := [], [];
    if n == 0 {
      assert done + [] == done;
    } else {
      var v, p := FirstItem(buf, pos, depth, n, done);
      var restParts, rest := ItemsAreSpelled(buf, p, depth, n - 1, done + [v]);
      var end := ReadItems(buf, pos, depth, n, done).value.1;
      parts, items := [buf[pos..p]] + restParts, [v] + rest;
      ItemInFront(buf[pos..p], v, restParts, rest, depth);
      Between(buf, pos, p, end);
      assert done + [v] + rest == done + items;
    }
  }

  /** The first turn of the array loop. */
  lemma {:induction false} FirstItem(buf: seq<byte>, pos: nat, depth: nat, n: nat, done: seq<Value>) returns (v: Value, p: nat)
    requires depth <= MAX_DEPTH + 1 && n > 0 && ReadItems(buf, pos, depth, n, done).Ok?
    ensures pos < p <= |buf| && Spells(buf[pos..p], v, depth)
    ensures ReadItems(buf, pos, depth, n, done) == ReadItems(buf, p, depth, n - 1, done + [v])
    decreases MAX_DEPTH + 1 - depth, 0, 1
  {
    ReadIsSpelled(buf, pos, depth);
    v, p := ReadItem(buf, pos, depth).value.0, ReadItem(buf, pos, depth).value.1;
  }

  /** The first turn of the map loop. */
  lemma {:induction false} FirstPair(buf: seq<byte>, pos: nat, depth: nat, n: nat, done: seq<Pair>) returns (e: Pair, p: nat)
    requires depth <= MAX_DEPTH + 1 && n > 0 && ReadPairs(buf, pos, depth, n, done).Ok?
    ensures pos <= p <= |buf| && SpellsPair(buf[pos..p], e, depth)
    ensures ReadPairs(buf, pos, depth, n, done) == ReadPairs(buf, p, depth, n - 1, done + [e])
    decreases MAX_DEPTH + 1 - depth, 0, 2
  {
    PairIsSpelled(buf, pos, depth);
    e, p := ReadPair(buf, pos, depth).value.0, ReadPair(buf, pos, depth).value.1;
  }

  lemma {:induction false} ItemInFront(part: seq<byte>, v: Value, parts: seq<seq<byte>>, items: seq<Value>, depth: nat)
    requires depth <= MAX_DEPTH + 1 && Spells(part, v, depth) && SpellsItems(parts, items, depth)
    ensures SpellsItems([part] + parts, [v] + items, depth) && Flatten([part] + parts) == part + Flatten(parts)
  {
    assert ([part] + parts)[1..] == parts;
  }

  lemma {:induction false} PairInFront(part: seq<byte>, e: Pair, parts: seq<seq<byte>>, pairs: seq<Pair>, depth: nat)
    requires depth <= MAX_DEPTH + 1 && SpellsPair(part, e, depth) && SpellsPairs(parts, pairs, depth)
    ensures SpellsPairs([part] + parts, [e] + pairs, depth) && Flatten([part] + parts) == part + Flatten(parts)
  {
    assert ([part] + parts)[1..] == parts;
  }

  lemma {:induction false} Between(buf: seq<byte>, a: nat, b: nat, c: nat)
    requires a <= b <= c <= |buf|
    ensures buf[a..c] == buf[a..b] + buf[b..c]
  {
  }

  lemma {:induction false} PairsAreSpelled(buf: seq<byte>, pos: nat, depth: nat, n: nat, done: seq<Pair>)
    returns (parts: seq<seq<byte>>, pairs: seq<Pair>)
    requires depth <= MAX_DEPTH + 1 && pos <= |buf| && ReadPairs(buf, pos, depth, n, done).Ok?
    ensures var (all, end) := ReadPairs(buf, pos, depth, n, done).value;
            && pos <= end <= |buf| && all == done + pairs && |pairs| == n
            && SpellsPairs(parts, pairs, depth) && buf[pos..end] == Flatten(parts)
    decreases MAX_DEPTH + 1 - depth, 1, n
  {
    parts, pairs := [], [];
    if n == 0 {
      assert done + [] == done;
    } else {
      var e, p := FirstPair(buf, pos, depth, n, done);
      var restParts, rest := PairsAreSpelled(buf, p, depth, n - 1, done + [e]);
      var end := ReadPairs(buf, pos, depth, n, done).value.1;
      parts, pairs := [buf[pos..p]] + restParts, [e] + rest;
      PairInFront(buf[pos..p], e, restParts, rest, depth);
      Between(buf, pos, p, end);
      assert done + [e] + rest == done + pairs;
    }
  }

  lemma {:induction false} PairIsSpelled(buf: seq<byte>, pos: nat, depth: nat)
    requires depth <= MAX_DEPTH + 1 && ReadPair(buf, pos, depth).Ok?
    ensures var (e, end) := ReadPair(buf, pos, depth).value; pos <= end <= |buf| && SpellsPair(buf[pos..end], e, depth)
    decreases MAX_DEPTH + 1 - depth, 0, 1
  {
    ReadIsSpelled(buf, pos, depth);
    var (k, p) := ReadItem(buf, pos, depth).value;
    ReadIsSpelled(buf, p, depth);
    var (v, end) := ReadItem(buf, p, depth).value;
    Between(buf, pos, p, end);
  }

  /**
   Exactness, for all bytes: reading at a position gives a value and its end if and only if the bytes
   between spell that value.
   */
  lemma {:induction false} ReadsExactlySpelled(buf: seq<byte>, pos: nat, depth: nat, v: Value, end: nat)
    requires depth <= MAX_DEPTH + 1 && pos <= end <= |buf|
    ensures ReadItem(buf, pos, depth) == Ok((v, end)) <==> Spells(buf[pos..end], v, depth)
  {
    if ReadItem(buf, pos, depth) == Ok((v, end)) { ReadIsSpelled(buf, pos, depth); }
    if Spells(buf[pos..end], v, depth) {
      SpelledReads(buf, buf[pos..end], v, depth);
      assert At(buf, pos, buf[pos..end]);
    }
  }

  /** A byte string spells at most one value, and none of its proper prefixes spells one. */
  lemma {:induction false} SpellingIsUnique(s: seq<byte>, n: nat, v: Value, w: Value, depth: nat)
    requires depth <= MAX_DEPTH + 1 && n <= |s| && Spells(s, v, depth) && Spells(s[..n], w, depth)
    ensures v == w && n == |s|
  {
    assert s[0..|s|] == s && s[0..n] == s[..n];
    ReadsExactlySpelled(s, 0, depth, v, |s|);
    ReadsExactlySpelled(s, 0, depth, w, n);
  }

  /** The encoders spell what they encode, among other spellings. */
  lemma {:induction false} EncodingSpells(v: Value)
    requires Encodable(v) && FitsAt(v, 0)
    ensures Spells(Encode(v), v, 0)
  {
    var s := Encode(v);
    assert s + [] == s && s[0..|s|] == s;
    RoundTrip(v, []);
    ReadsExactlySpelled(s, 0, 0, v, |s|);
  }

  // ----- What a map holds -----

  /** Integers and texts are compared by value, any other key by identity. */
  predicate ByValue(k: Value) {
    k.Int? || k.Text?
  }

  ghost predicate KeysDiffer(entries: seq<Pair>) {
    forall i, j :: 0 <= i < j < |entries| && ByValue(entries[i].key) ==> entries[i].key != entries[j].key
  }

  /** The pair at `i` is the last one with its key. */
  ghost predicate LastUnderKey(pairs: seq<Pair>, i: nat) {
    i < |pairs| && forall j :: i < j < |pairs| ==> pairs[j].key != pairs[i].key
  }

  /** A pair stays in the map: no later one replaces it. */
  ghost predicate Remains(pairs: seq<Pair>, i: nat, p: Pair) {
    i < |pairs| && pairs[i] == p && (ByValue(p.key) ==> LastUnderKey(pairs, i))
  }

  lemma {:induction false} MapSetHolds(entries: seq<Pair>, k: Value, v: Value)
    requires KeysDiffer(entries)
    ensures forall p :: p in MapSet(entries, k, v) <==> p == Pair(k, v) || (p in entries && !(ByValue(k) && p.key == k))
    ensures KeysDiffer(MapSet(entries, k, v))
  {
    if entries != [] {
      var e, rest := entries[0], entries[1..];
      assert forall p :: p in entries <==> p == e || p in rest;
      assert forall p :: p in rest ==> ByValue(p.key) || ByValue(e.key) ==> p.key != e.key;
      if ByValue(k) && e.key == k {
        assert MapSet(entries, k, v) == [Pair(k, v)] + rest;
      } else {
        assert KeysDiffer(rest);
        MapSetHolds(rest, k, v);
        assert MapSet(entries, k, v) == [e] + MapSet(rest, k, v);
        assert forall p :: p in MapSet(rest, k, v) ==> ByValue(e.key) ==> p.key != e.key;
      }
    }
  }

  /**
   The last pair wins: of the pairs with one integer or text as key a map holds the last, of all other pairs
   every one, and no integer or text is a key twice.
   */
  lemma {:induction false} MapHoldsLast(pairs: seq<Pair>)
    ensures forall p :: p in MapOf(pairs) <==> exists i: nat :: Remains(pairs, i, p)
    ensures KeysDiffer(MapOf(pairs))
  {
    if pairs != [] {
      var n := |pairs| - 1;
      var init, last := pairs[..n], pairs[n];
      MapHoldsLast(init);
      MapSetHolds(MapOf(init), last.key, last.val);
      assert Pair(last.key, last.val) == last && Remains(pairs, n, last);
      forall p ensures p in MapOf(pairs) <==> exists i: nat :: Remains(pairs, i, p) {
        if i: nat :| Remains(init, i, p) && !(ByValue(last.key) && p.key == last.key) { assert Remains(pairs, i, p); }
        if i: nat :| Remains(pairs, i, p) && i < n { assert Remains(init, i, p); }
      }
    }
  }
}
