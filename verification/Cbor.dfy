/**
 The CBOR subset of App Attest (token-issuer/appattest.js, `cborDecodeFirst`), with the encoders of
 token-issuer/appattest-fixtures.js as its inverse. Section 3 of RFC 8949 defines the format. A
 text is kept as its UTF-8 bytes.
 */
module Cbor {
  import opened Prelude
  import opened Bytes

  const MAX_DEPTH := 16

  datatype Value =
    | Int(n: int)
    | Bytes(b: seq<byte>)
    | Text(b: seq<byte>)
    | Arr(items: seq<Value>)
    | Obj(entries: seq<Pair>)

  datatype Pair = Pair(key: Value, val: Value)

  datatype Error = MaxDepth | Truncated | Overrun | LengthTooLarge | ReservedLength | Unsupported

  /** A value and the position after it. */
  type Read<T> = Result<(T, nat), Error>

  // ----- The decoder as a function of the buffer, the position and the depth -----

  /** How many bytes follow an initial byte whose low five bits are `minor`, from 24 to 27. */
  function Width(minor: nat): nat {
    match minor
    case 24 => 1
    case 25 => 2
    case 26 => 4
    case _ => 8
  }

  function ReadLength(buf: seq<byte>, pos: nat, minor: nat): Read<nat> {
    if minor < 24 then Ok((minor, pos))
    else if minor > 27 then Err(ReservedLength)
    else if pos + Width(minor) > |buf| then Err(Truncated)
    else
      var n := BigEndian(buf[pos..pos + Width(minor)]);
      if n < 0x1_0000_0000 then Ok((n, pos + Width(minor))) else Err(LengthTooLarge)
  }

  /** Map.prototype.set: integers and texts compare by value, every other key by identity. */
  function MapSet(entries: seq<Pair>, k: Value, v: Value): seq<Pair> {
    if entries == [] then [Pair(k, v)]
    else if (k.Int? || k.Text?) && entries[0].key == k then [Pair(entries[0].key, v)] + entries[1..]
    else [entries[0]] + MapSet(entries[1..], k, v)
  }

  /** A map holds what setting its pairs one after the other leaves. */
  function MapOf(pairs: seq<Pair>): seq<Pair> {
    if pairs == [] then []
    else
      var last := pairs[|pairs| - 1];
      MapSet(MapOf(pairs[..|pairs| - 1]), last.key, last.val)
  }

  function ReadItem(buf: seq<byte>, pos: nat, depth: nat): Read<Value>
    requires depth <= MAX_DEPTH + 1
    decreases MAX_DEPTH + 1 - depth, 0, 0
  {
    if depth > MAX_DEPTH then Err(MaxDepth)
    else if pos >= |buf| then Err(Truncated)
    else match ReadLength(buf, pos + 1, buf[pos] as nat % 32)
      case Err(e) => Err(e)
      case Ok((n, p)) => ReadBody(buf, p, depth, buf[pos] as nat / 32, n)
  }

  /** What follows the head of an item. */
  function ReadBody(buf: seq<byte>, p: nat, depth: nat, major: nat, n: nat): Read<Value>
    requires depth <= MAX_DEPTH
    decreases MAX_DEPTH - depth, 3, 0
  {
    match major
    case 0 => Ok((Int(n), p))
    case 1 => Ok((Int(-1 - n), p))
    case 2 => if p + n > |buf| then Err(Overrun) else Ok((Bytes(buf[p..p + n]), p + n))
    case 3 => if p + n > |buf| then Err(Overrun) else Ok((Text(buf[p..p + n]), p + n))
    case 4 => ArrFrom(ReadItems(buf, p, depth + 1, n, []))
    case 5 => ObjFrom(ReadPairs(buf, p, depth + 1, n, []))
    case _ => Err(Unsupported)
  }

  /** The loop of an array: `n` more items after those in `done`. */
  function ReadItems(buf: seq<byte>, pos: nat, depth: nat, n: nat, done: seq<Value>): Read<seq<Value>>
    requires depth <= MAX_DEPTH + 1
    decreases MAX_DEPTH + 1 - depth, 2, n
  {
    if n == 0 then Ok((done, pos))
    else match ReadItem(buf, pos, depth)
      case Err(e) => Err(e)
      case Ok((v, p)) => ReadItems(buf, p, depth, n - 1, done + [v])
  }

  /** A key and then its value. */
  function ReadPair(buf: seq<byte>, pos: nat, depth: nat): Read<Pair>
    requires depth <= MAX_DEPTH + 1
    decreases MAX_DEPTH + 1 - depth, 1, 0
  {
    match ReadItem(buf, pos, depth)
    case Err(e) => Err(e)
    case Ok((k, p)) =>
      match ReadItem(buf, p, depth)
      case Err(e) => Err(e)
      case Ok((v, q)) => Ok((Pair(k, v), q))
  }

  /** The loop of a map: `n` more pairs after those in `done`. */
  function ReadPairs(buf: seq<byte>, pos: nat, depth: nat, n: nat, done: seq<Pair>): Read<seq<Pair>>
    requires depth <= MAX_DEPTH + 1
    decreases MAX_DEPTH + 1 - depth, 2, n
  {
    if n == 0 then Ok((done, pos))
    else match ReadPair(buf, pos, depth)
      case Err(e) => Err(e)
      case Ok((e, p)) => ReadPairs(buf, p, depth, n - 1, done + [e])
  }

  function ArrFrom(r: Read<seq<Value>>): Read<Value> {
    if r.Ok? then Ok((Arr(r.value.0), r.value.1)) else Err(r.error)
  }

  function ObjFrom(r: Read<seq<Pair>>): Read<Value> {
    if r.Ok? then Ok((Obj(MapOf(r.value.0)), r.value.1)) else Err(r.error)
  }

  /** `cborDecodeFirst`: the first item and where it ends. */
  function DecodeFirst(buf: seq<byte>): Read<Value> {
    ReadItem(buf, 0, 0)
  }

  // ----- The decoder as it is written -----

  class Reader {
    const buf: seq<byte>
    var pos: nat

    constructor (buf: seq<byte>)
      ensures this.buf == buf && pos == 0
    {
      this.buf := buf;
      pos := 0;
    }

    /** `r` and the new position are what `spec` says. */
    ghost predicate Gives<T>(spec: Read<T>, r: Result<T, Error>)
      reads this
    {
      match spec
      case Ok((v, p)) => r == Ok(v) && pos == p
      case Err(e) => r == Err(e)
    }

    method ReadLen(minor: nat) returns (r: Result<nat, Error>)
      modifies this
      ensures Gives(ReadLength(buf, old(pos), minor), r)
    {
      if minor < 24 { return Ok(minor); }
      Widths();
      if minor == 24 {
        if pos + 1 > |buf| { return Err(Truncated); }
        var v := BigEndian(buf[pos..pos + 1]);
        BigEndianBound(buf[pos..pos + 1]);
        pos := pos + 1;
        return Ok(v);
      }
      if minor == 25 {
        if pos + 2 > |buf| { return Err(Truncated); }
        var v := BigEndian(buf[pos..pos + 2]);
        BigEndianBound(buf[pos..pos + 2]);
        pos := pos + 2;
        return Ok(v);
      }
      if minor == 26 {
        if pos + 4 > |buf| { return Err(Truncated); }
        var v := BigEndian(buf[pos..pos + 4]);
        BigEndianBound(buf[pos..pos + 4]);
        pos := pos + 4;
        return Ok(v);
      }
      if minor == 27 {
        if pos + 8 > |buf| { return Err(Truncated); }
        var hi := BigEndian(buf[pos..pos + 4]);
        var lo := BigEndian(buf[pos + 4..pos + 8]);
        BigEndianBound(buf[pos + 4..pos + 8]);
        assert BigEndian(buf[pos..pos + 8]) == hi * 0x1_0000_0000 + lo by {
          assert buf[pos..pos + 8] == buf[pos..pos + 4] + buf[pos + 4..pos + 8];
          BigEndianConcat(buf[pos..pos + 4], buf[pos + 4..pos + 8]);
        }
        pos := pos + 8;
        if hi != 0 { return Err(LengthTooLarge); }
        return Ok(lo);
      }
      return Err(ReservedLength);
    }

    /** `cborReadItem` computes ReadItem and leaves the position after the item. */
    method Item(depth: nat) returns (r: Result<Value, Error>)
      requires depth <= MAX_DEPTH + 1
      modifies this
      ensures Gives(ReadItem(buf, old(pos), depth), r)
      decreases MAX_DEPTH + 1 - depth, 0
    {
      if depth > MAX_DEPTH { return Err(MaxDepth); }
      if pos >= |buf| { return Err(Truncated); }
      var ib := buf[pos] as nat;
      pos := pos + 1;
      var major, minor := ib / 32, ib % 32;
      var len := ReadLen(minor);
      if len.Err? { return Err(len.error); }
      var n: int := len.value;
      r := Body(depth, major, n);
    }

    /** The switch on the major type. */
    method Body(depth: nat, major: nat, n: int) returns (r: Result<Value, Error>)
      requires depth <= MAX_DEPTH && n >= 0
      modifies this
      ensures Gives(ReadBody(buf, old(pos), depth, major, n), r)
      decreases MAX_DEPTH - depth, 2
    {
      if major == 0 { return Ok(Int(n)); }
      if major == 1 { return Ok(Int(-1 - n)); }
      if major == 2 || major == 3 {
        if pos + n > |buf| { return Err(Overrun); }
        var out := buf[pos..pos + n];
        pos := pos + n;
        return Ok(if major == 2 then Bytes(out) else Text(out));
      }
      if major == 4 {
        var items := ReadArray(depth + 1, n);
        return if items.Ok? then Ok(Arr(items.value)) else Err(items.error);
      }
      if major == 5 {
        var entries := ReadMap(depth + 1, n);
        return if entries.Ok? then Ok(Obj(entries.value)) else Err(entries.error);
      }
      return Err(Unsupported);
    }

    /** The loop that fills an array. */
    method ReadArray(depth: nat, n: nat) returns (r: Result<seq<Value>, Error>)
      requires depth <= MAX_DEPTH + 1
      modifies this
      ensures Gives(ReadItems(buf, old(pos), depth, n, []), r)
      decreases MAX_DEPTH + 1 - depth, 1
    {
      var arr: seq<Value> := [];
      for i := 0 to n
        invariant ReadItems(buf, old(pos), depth, n, []) == ReadItems(buf, pos, depth, n - i, arr)
      {
        var v := Item(depth);
        if v.Err? { return Err(v.error); }
        arr := arr + [v.value];
      }
      return Ok(arr);
    }

    /** The loop that fills a map. */
    method ReadMap(depth: nat, n: nat) returns (r: Result<seq<Pair>, Error>)
      requires depth <= MAX_DEPTH + 1
      modifies this
      ensures match ReadPairs(buf, old(pos), depth, n, [])
              case Ok((pairs, p)) => r == Ok(MapOf(pairs)) && pos == p
              case Err(e) => r == Err(e)
      decreases MAX_DEPTH + 1 - depth, 1
    {
      var m: seq<Pair> := [];
      ghost var pairs: seq<Pair> := [];
      for i := 0 to n
        invariant m == MapOf(pairs)
        invariant ReadPairs(buf, old(pos), depth, n, []) == ReadPairs(buf, pos, depth, n - i, pairs)
      {
        var k := Item(depth);
        if k.Err? { return Err(k.error); }
        var v := Item(depth);
        if v.Err? { return Err(v.error); }
        m := MapSet(m, k.value, v.value);
        assert (pairs + [Pair(k.value, v.value)])[..|pairs|] == pairs;
        pairs := pairs + [Pair(k.value, v.value)];
      }
      return Ok(m);
    }
  }

  // ----- The encoders -----

  /** `cborUint` with the major type written into its first byte. */
  function Head(major: nat, n: nat): (h: seq<byte>)
    requires major < 6 && n < 0x1_0000_0000
    ensures h != []
  {
    if n < 24 then [(32 * major + n) as byte]
    else
      var minor := if n < 0x100 then 24 else if n < 0x1_0000 then 25 else 26;
      [(32 * major + minor) as byte] + ToBigEndian(n, Width(minor))
  }

  /** Values the encoders can write: 32-bit heads, and map keys that are distinct integers or texts. */
  ghost predicate Encodable(v: Value) {
    match v
    case Int(n) => -0x1_0000_0000 <= n < 0x1_0000_0000
    case Bytes(b) => |b| < 0x1_0000_0000
    case Text(b) => |b| < 0x1_0000_0000
    case Arr(items) => |items| < 0x1_0000_0000 && forall i :: 0 <= i < |items| ==> Encodable(items[i])
    case Obj(entries) =>
      && |entries| < 0x1_0000_0000
      && (forall i :: 0 <= i < |entries| ==> Encodable(entries[i].key) && Encodable(entries[i].val))
      && SimpleDistinctKeys(entries)
  }

  ghost predicate SimpleDistinctKeys(entries: seq<Pair>) {
    entries == [] ||
    var init, k := entries[..|entries| - 1], entries[|entries| - 1].key;
    (k.Int? || k.Text?) && (forall i :: 0 <= i < |init| ==> init[i].key != k) && SimpleDistinctKeys(init)
  }

  function Flatten(parts: seq<seq<byte>>): seq<byte> {
    if parts == [] then [] else parts[0] + Flatten(parts[1..])
  }

  ghost function Encode(v: Value): (s: seq<byte>)
    requires Encodable(v)
    ensures s != []
  {
    match v
    case Int(n) => if n >= 0 then Head(0, n) else Head(1, -1 - n)
    case Bytes(b) => Head(2, |b|) + b
    case Text(b) => Head(3, |b|) + b
    case Arr(items) => Head(4, |items|) + Flatten(seq(|items|, i requires 0 <= i < |items| => Encode(items[i])))
    case Obj(entries) =>
      Head(5, |entries|) +
      Flatten(seq(|entries|, i requires 0 <= i < |entries| => Encode(entries[i].key) + Encode(entries[i].val)))
  }

  /** With `v` at nesting depth `depth`, nothing inside it lies deeper than the decoder goes. */
  ghost predicate FitsAt(v: Value, depth: nat) {
    && depth <= MAX_DEPTH
    && (v.Arr? ==> forall i :: 0 <= i < |v.items| ==> FitsAt(v.items[i], depth + 1))
    && (v.Obj? ==> forall i :: 0 <= i < |v.entries| ==> FitsAt(v.entries[i].key, depth + 1) && FitsAt(v.entries[i].val, depth + 1))
  }

  // ----- Round trip -----

  /** What reading an encoding must give. */
  ghost function Expected<T>(v: T, end: nat, fits: bool): Read<T> {
    if fits then Ok((v, end)) else Err(MaxDepth)
  }

  /** Wherever `part` stands in the buffer, `v` is read from it, or the read fails for its depth. */
  ghost predicate ItemReads(buf: seq<byte>, depth: nat, part: seq<byte>, v: Value, fits: bool)
    requires depth <= MAX_DEPTH + 1
  {
    forall p: nat {:trigger At(buf, p, part)} :: At(buf, p, part) ==> ReadItem(buf, p, depth) == Expected(v, p + |part|, fits)
  }

  ghost predicate PairReads(buf: seq<byte>, depth: nat, part: seq<byte>, e: Pair, fits: bool)
    requires depth <= MAX_DEPTH + 1
  {
    forall p: nat {:trigger At(buf, p, part)} :: At(buf, p, part) ==> ReadPair(buf, p, depth) == Expected(e, p + |part|, fits)
  }

  /** A pair is read back from a key followed by a value. */
  lemma {:induction false} PairFromItems(buf: seq<byte>, depth: nat, a: seq<byte>, b: seq<byte>, e: Pair, keyFits: bool, valFits: bool)
    requires depth <= MAX_DEPTH + 1
    requires ItemReads(buf, depth, a, e.key, keyFits) && ItemReads(buf, depth, b, e.val, valFits)
    ensures PairReads(buf, depth, a + b, e, keyFits && valFits)
  {
    forall p: nat | At(buf, p, a + b)
      ensures ReadPair(buf, p, depth) == Expected(e, p + |a + b|, keyFits && valFits)
    {
      AtSplit(buf, p, a, b);
    }
  }

  /** The array loop reads back the concatenation of its items. */
  lemma {:induction false} ItemsRead(buf: seq<byte>, pos: nat, depth: nat, parts: seq<seq<byte>>, vs: seq<Value>,
                                     fits: seq<bool>, done: seq<Value>, all: seq<Value>)
    requires |parts| == |vs| == |fits| && all == done + vs && depth <= MAX_DEPTH + 1
    requires forall i {:trigger parts[i]} :: 0 <= i < |vs| ==> ItemReads(buf, depth, parts[i], vs[i], fits[i])
    requires At(buf, pos, Flatten(parts))
    ensures ReadItems(buf, pos, depth, |vs|, done) == Expected(all, pos + |Flatten(parts)|, false !in fits)
    decreases |vs|
  {
    if vs == [] {
      assert all == done;
    } else {
      AtSplit(buf, pos, parts[0], Flatten(parts[1..]));
      assert ItemReads(buf, depth, parts[0], vs[0], fits[0]);
      ItemsRead(buf, pos + |parts[0]|, depth, parts[1..], vs[1..], fits[1..], done + [vs[0]], all);
      assert fits == [fits[0]] + fits[1..];
    }
  }

  /** The map loop reads back the concatenation of its pairs. */
  lemma {:induction false} PairsRead(buf: seq<byte>, pos: nat, depth: nat, parts: seq<seq<byte>>, es: seq<Pair>,
                                     fits: seq<bool>, done: seq<Pair>, all: seq<Pair>)
    requires |parts| == |es| == |fits| && all == done + es && depth <= MAX_DEPTH + 1
    requires forall i {:trigger parts[i]} :: 0 <= i < |es| ==> PairReads(buf, depth, parts[i], es[i], fits[i])
    requires At(buf, pos, Flatten(parts))
    ensures ReadPairs(buf, pos, depth, |es|, done) == Expected(all, pos + |Flatten(parts)|, false !in fits)
    decreases |es|
  {
    if es == [] {
      assert all == done;
    } else {
      AtSplit(buf, pos, parts[0], Flatten(parts[1..]));
      assert PairReads(buf, depth, parts[0], es[0], fits[0]);
      PairsRead(buf, pos + |parts[0]|, depth, parts[1..], es[1..], fits[1..], done + [es[0]], all);
      assert fits == [fits[0]] + fits[1..];
    }
  }

  lemma {:induction false} MapSetAppends(entries: seq<Pair>, k: Value, v: Value)
    requires forall i :: 0 <= i < |entries| ==> entries[i].key != k
    ensures MapSet(entries, k, v) == entries + [Pair(k, v)]
  {
    if entries != [] { MapSetAppends(entries[1..], k, v); }
  }

  /** Pairs with distinct keys are the map they make. */
  lemma {:induction false} MapOfDistinct(entries: seq<Pair>)
    requires SimpleDistinctKeys(entries)
    ensures MapOf(entries) == entries
  {
    if entries != [] {
      var init, last := entries[..|entries| - 1], entries[|entries| - 1];
      MapOfDistinct(init);
      MapSetAppends(init, last.key, last.val);
      assert entries == init + [last];
    }
  }

  /** A head is read back as its major type and number. */
  lemma {:induction false} HeadReads(buf: seq<byte>, pos: nat, major: nat, n: nat)
    requires major < 6 && n < 0x1_0000_0000 && At(buf, pos, Head(major, n))
    ensures buf[pos] as nat / 32 == major
    ensures ReadLength(buf, pos + 1, buf[pos] as nat % 32) == Ok((n, pos + |Head(major, n)|))
  {
    var h := Head(major, n);
    assert buf[pos] == h[0];
    if n >= 24 {
      var w := |h| - 1;
      AtSlice(buf, pos, h);
      assert buf[pos + 1..pos + 1 + w] == buf[pos..pos + |h|][1..] == h[1..];
      Widths();
      BigEndianReads(n, w);
    }
  }

  /** Wherever `head` stands, an item of this major type and number begins. */
  ghost predicate Begins(buf: seq<byte>, depth: nat, head: seq<byte>, major: nat, n: nat)
    requires depth <= MAX_DEPTH
  {
    forall p: nat {:trigger At(buf, p, head)} :: At(buf, p, head) ==> ReadItem(buf, p, depth) == ReadBody(buf, p + |head|, depth, major, n)
  }

  lemma {:induction false} HeadBegins(buf: seq<byte>, depth: nat, major: nat, n: nat)
    requires major < 6 && n < 0x1_0000_0000 && depth <= MAX_DEPTH
    ensures Begins(buf, depth, Head(major, n), major, n)
  {
    forall p: nat | At(buf, p, Head(major, n))
      ensures ReadItem(buf, p, depth) == ReadBody(buf, p + |Head(major, n)|, depth, major, n)
    {
      HeadReads(buf, p, major, n);
      ItemIsBody(buf, p, depth, major, n, p + |Head(major, n)|);
    }
  }

  lemma {:induction false} ItemIsBody(buf: seq<byte>, p: nat, depth: nat, major: nat, n: nat, end: nat)
    requires depth <= MAX_DEPTH && p < |buf| && buf[p] as nat / 32 == major
    requires ReadLength(buf, p + 1, buf[p] as nat % 32) == Ok((n, end))
    ensures ReadItem(buf, p, depth) == ReadBody(buf, end, depth, major, n)
  {
  }

  /** An array is read back where its items are. */
  lemma {:induction false} ArrReads(buf: seq<byte>, depth: nat, head: seq<byte>, items: seq<Value>, parts: seq<seq<byte>>, fits: seq<bool>)
    requires |parts| == |fits| == |items| && depth <= MAX_DEPTH && Begins(buf, depth, head, 4, |items|)
    requires forall i {:trigger parts[i]} :: 0 <= i < |items| ==> ItemReads(buf, depth + 1, parts[i], items[i], fits[i])
    ensures ItemReads(buf, depth, head + Flatten(parts), Arr(items), false !in fits)
  {
    var rest := Flatten(parts);
    forall pos: nat | At(buf, pos, head + rest)
      ensures ReadItem(buf, pos, depth) == Expected(Arr(items), pos + |head + rest|, false !in fits)
    {
      AtSplit(buf, pos, head, rest);
      ItemsRead(buf, pos + |head|, depth + 1, parts, items, fits, [], items);
    }
  }

  /** A map is read back where its pairs are. */
  lemma {:induction false} ObjReads(buf: seq<byte>, depth: nat, head: seq<byte>, entries: seq<Pair>, parts: seq<seq<byte>>, fits: seq<bool>)
    requires |parts| == |fits| == |entries| && depth <= MAX_DEPTH && Begins(buf, depth, head, 5, |entries|)
    requires forall i {:trigger parts[i]} :: 0 <= i < |entries| ==> PairReads(buf, depth + 1, parts[i], entries[i], fits[i])
    ensures ItemReads(buf, depth, head + Flatten(parts), Obj(MapOf(entries)), false !in fits)
  {
    var rest := Flatten(parts);
    forall pos: nat | At(buf, pos, head + rest)
      ensures ReadItem(buf, pos, depth) == Expected(Obj(MapOf(entries)), pos + |head + rest|, false !in fits)
    {
      AtSplit(buf, pos, head, rest);
      PairsRead(buf, pos + |head|, depth + 1, parts, entries, fits, [], entries);
    }
  }

  lemma {:induction false} IntReads(buf: seq<byte>, depth: nat, head: seq<byte>, n: int)
    requires depth <= MAX_DEPTH
    requires if n >= 0 then Begins(buf, depth, head, 0, n) else Begins(buf, depth, head, 1, -1 - n)
    ensures ItemReads(buf, depth, head, Int(n), true)
  {
  }

  lemma {:induction false} StringReads(buf: seq<byte>, depth: nat, head: seq<byte>, b: seq<byte>, text: bool)
    requires depth <= MAX_DEPTH && Begins(buf, depth, head, if text then 3 else 2, |b|)
    ensures ItemReads(buf, depth, head + b, if text then Text(b) else Bytes(b), true)
  {
    forall pos: nat | At(buf, pos, head + b)
      ensures ReadItem(buf, pos, depth) == Ok((if text then Text(b) else Bytes(b), pos + |head + b|))
    {
      AtSplit(buf, pos, head, b);
      AtSlice(buf, pos + |head|, b);
    }
  }

  /**
   An encoding anywhere in a buffer is read back exactly, and too deep a nesting is the only reason
   why it would not be.
   */
  lemma {:induction false} ReadsBack(buf: seq<byte>, v: Value, depth: nat)
    requires Encodable(v) && depth <= MAX_DEPTH + 1
    ensures ItemReads(buf, depth, Encode(v), v, FitsAt(v, depth))
    decreases v, 1
  {
    if depth <= MAX_DEPTH {
      match v
      case Int(n) =>
        if n >= 0 { HeadBegins(buf, depth, 0, n); } else { HeadBegins(buf, depth, 1, -1 - n); }
        IntReads(buf, depth, Encode(v), n);
      case Bytes(b) =>
        HeadBegins(buf, depth, 2, |b|);
        StringReads(buf, depth, Head(2, |b|), b, false);
      case Text(b) =>
        HeadBegins(buf, depth, 3, |b|);
        StringReads(buf, depth, Head(3, |b|), b, true);
      case Arr(_) => ArrReadsBack(buf, v, depth);
      case Obj(_) => ObjReadsBack(buf, v, depth);
    }
  }

  lemma {:induction false} ArrReadsBack(buf: seq<byte>, v: Value, depth: nat)
    requires Encodable(v) && depth <= MAX_DEPTH && v.Arr?
    ensures ItemReads(buf, depth, Encode(v), v, FitsAt(v, depth))
    decreases v, 0
  {
    var items := v.items;
    var parts := seq(|items|, i requires 0 <= i < |items| => Encode(items[i]));
    var fits := seq(|items|, i requires 0 <= i < |items| => FitsAt(items[i], depth + 1));
    forall i | 0 <= i < |items|
      ensures ItemReads(buf, depth + 1, parts[i], items[i], fits[i])
    {
      ReadsBack(buf, items[i], depth + 1);
    }
    HeadBegins(buf, depth, 4, |items|);
    ArrReads(buf, depth, Head(4, |items|), items, parts, fits);
    if !FitsAt(v, depth) {
      var i :| 0 <= i < |items| && !FitsAt(items[i], depth + 1);
      assert fits[i] == false;
    }
  }

  lemma {:induction false} PairReadsBack(buf: seq<byte>, e: Pair, depth: nat)
    requires Encodable(e.key) && Encodable(e.val) && depth <= MAX_DEPTH + 1
    ensures PairReads(buf, depth, Encode(e.key) + Encode(e.val), e, FitsAt(e.key, depth) && FitsAt(e.val, depth))
    decreases e, 2
  {
    ReadsBack(buf, e.key, depth);
    ReadsBack(buf, e.val, depth);
    PairFromItems(buf, depth, Encode(e.key), Encode(e.val), e, FitsAt(e.key, depth), FitsAt(e.val, depth));
  }

  lemma {:induction false} ObjReadsBack(buf: seq<byte>, v: Value, depth: nat)
    requires Encodable(v) && depth <= MAX_DEPTH && v.Obj?
    ensures ItemReads(buf, depth, Encode(v), v, FitsAt(v, depth))
    decreases v, 0
  {
    var entries := v.entries;
    var parts := seq(|entries|, i requires 0 <= i < |entries| => Encode(entries[i].key) + Encode(entries[i].val));
    var fits := seq(|entries|, i requires 0 <= i < |entries| => FitsAt(entries[i].key, depth + 1) && FitsAt(entries[i].val, depth + 1));
    forall i | 0 <= i < |entries|
      ensures PairReads(buf, depth + 1, parts[i], entries[i], fits[i])
    {
      PairReadsBack(buf, entries[i], depth + 1);
    }
    MapOfDistinct(entries);
    HeadBegins(buf, depth, 5, |entries|);
    ObjReads(buf, depth, Head(5, |entries|), entries, parts, fits);
    if !FitsAt(v, depth) {
      var i :| 0 <= i < |entries| && !(FitsAt(entries[i].key, depth + 1) && FitsAt(entries[i].val, depth + 1));
      assert fits[i] == false;
    }
  }

  /**
   Round trip. Decoding an encoding followed by any bytes returns the value and the exact length of
   its encoding if the value nests at most 16 deep, and fails for its depth otherwise.
   */
  lemma {:induction false} RoundTrip(v: Value, suffix: seq<byte>)
    requires Encodable(v)
    ensures DecodeFirst(Encode(v) + suffix) == Expected(v, |Encode(v)|, FitsAt(v, 0))
  {
    var buf := Encode(v) + suffix;
    assert At(buf, 0, Encode(v));
    ReadsBack(buf, v, 0);
  }

  // ----- Different values have different encodings, at any depth -----

  /** Two heads at the start of the same bytes are the same head. */
  lemma {:induction false} HeadsPrefixFree(m: nat, n: nat, a: seq<byte>, m': nat, n': nat, b: seq<byte>)
    requires m < 6 && n < 0x1_0000_0000 && m' < 6 && n' < 0x1_0000_0000
    requires Head(m, n) + a == Head(m', n') + b
    ensures m == m' && n == n' && a == b
  {
    var h, h' := Head(m, n), Head(m', n');
    var buf := h + a;
    assert At(buf, 0, h);
    assert At(buf, 0, h') by { assert buf == h' + b; }
    HeadReads(buf, 0, m, n);
    HeadReads(buf, 0, m', n');
    assert a == buf[|h|..] && b == (h' + b)[|h'|..];
  }

  ghost function MajorOf(v: Value): nat {
    match v
    case Int(n) => if n >= 0 then 0 else 1
    case Bytes(_) => 2
    case Text(_) => 3
    case Arr(_) => 4
    case Obj(_) => 5
  }

  ghost function NumberOf(v: Value): int {
    match v
    case Int(n) => if n >= 0 then n else -1 - n
    case Bytes(b) => |b|
    case Text(b) => |b|
    case Arr(items) => |items|
    case Obj(entries) => |entries|
  }

  ghost function BodyOf(v: Value): seq<byte>
    requires Encodable(v)
  {
    match v
    case Int(_) => []
    case Bytes(b) => b
    case Text(b) => b
    case Arr(items) => Flatten(ItemParts(items))
    case Obj(entries) => Flatten(PairParts(entries))
  }

  ghost predicate AllEncodable(items: seq<Value>) {
    forall i :: 0 <= i < |items| ==> Encodable(items[i])
  }

  ghost predicate AllPairsEncodable(entries: seq<Pair>) {
    forall i :: 0 <= i < |entries| ==> Encodable(entries[i].key) && Encodable(entries[i].val)
  }

  ghost function ItemParts(items: seq<Value>): (parts: seq<seq<byte>>)
    requires AllEncodable(items)
    ensures |parts| == |items|
  {
    seq(|items|, i requires 0 <= i < |items| => Encode(items[i]))
  }

  ghost function PairParts(entries: seq<Pair>): (parts: seq<seq<byte>>)
    requires AllPairsEncodable(entries)
    ensures |parts| == |entries|
  {
    seq(|entries|, i requires 0 <= i < |entries| => Encode(entries[i].key) + Encode(entries[i].val))
  }

  lemma {:induction false} EncodeIsHeadAndBody(v: Value)
    requires Encodable(v)
    ensures 0 <= NumberOf(v) < 0x1_0000_0000 && Encode(v) == Head(MajorOf(v), NumberOf(v)) + BodyOf(v)
  {
    match v
    case Arr(items) =>
      assert ItemParts(items) == seq(|items|, i requires 0 <= i < |items| => Encode(items[i]));
    case Obj(entries) =>
      assert PairParts(entries) == seq(|entries|, i requires 0 <= i < |entries| => Encode(entries[i].key) + Encode(entries[i].val));
    case _ =>
  }

  /** No encoding is a prefix of another, and different values have different encodings. */
  lemma {:induction false} EncodingIsPrefixFree(v: Value, w: Value, s: seq<byte>, t: seq<byte>)
    requires Encodable(v) && Encodable(w) && Encode(v) + s == Encode(w) + t
    ensures v == w && s == t
    decreases v, 1
  {
    EncodeIsHeadAndBody(v);
    EncodeIsHeadAndBody(w);
    BodiesFollow(MajorOf(v), NumberOf(v), BodyOf(v), s, MajorOf(w), NumberOf(w), BodyOf(w), t);
    match v
    case Int(_) => assert [] + s == s && [] + t == t;
    case Bytes(b) => SameLength(b, s, w.b, t);
    case Text(b) => SameLength(b, s, w.b, t);
    case Arr(items) => ItemsPrefixFree(items, w.items, s, t);
    case Obj(entries) => PairsPrefixFree(entries, w.entries, s, t);
  }

  lemma {:induction false} BodiesFollow(m: nat, n: nat, a: seq<byte>, s: seq<byte>, m': nat, n': nat, b: seq<byte>, t: seq<byte>)
    requires m < 6 && n < 0x1_0000_0000 && m' < 6 && n' < 0x1_0000_0000
    requires Head(m, n) + a + s == Head(m', n') + b + t
    ensures m == m' && n == n' && a + s == b + t
  {
    Regroup(Head(m, n), a, s);
    Regroup(Head(m', n'), b, t);
    HeadsPrefixFree(m, n, a + s, m', n', b + t);
  }

  lemma {:induction false} Regroup(h: seq<byte>, a: seq<byte>, s: seq<byte>)
    ensures h + a + s == h + (a + s)
  {
  }

  lemma {:induction false} SameLength(a: seq<byte>, s: seq<byte>, b: seq<byte>, t: seq<byte>)
    requires |a| == |b| && a + s == b + t
    ensures a == b && s == t
  {
    assert a == (a + s)[..|a|] && b == (b + t)[..|a|];
    assert s == (a + s)[|a|..] && t == (b + t)[|a|..];
  }

  lemma {:induction false} ItemsPrefixFree(items: seq<Value>, others: seq<Value>, s: seq<byte>, t: seq<byte>)
    requires AllEncodable(items) && AllEncodable(others) && |items| == |others|
    requires Flatten(ItemParts(items)) + s == Flatten(ItemParts(others)) + t
    ensures items == others && s == t
    decreases items, 0
  {
    if items == [] {
      assert [] + s == s && [] + t == t;
    } else {
      var v, w, rest, rest' := items[0], others[0], items[1..], others[1..];
      UnconsItems(items, s);
      UnconsItems(others, t);
      EncodingIsPrefixFree(v, w, Flatten(ItemParts(rest)) + s, Flatten(ItemParts(rest')) + t);
      ItemsPrefixFree(rest, rest', s, t);
      assert items == [v] + rest && others == [w] + rest';
    }
  }

  lemma {:induction false} UnconsItems(items: seq<Value>, s: seq<byte>)
    requires AllEncodable(items) && items != []
    ensures AllEncodable(items[1..])
    ensures Flatten(ItemParts(items)) + s == Encode(items[0]) + (Flatten(ItemParts(items[1..])) + s)
  {
    assert ItemParts(items)[1..] == ItemParts(items[1..]);
  }

  lemma {:induction false} PairsPrefixFree(entries: seq<Pair>, others: seq<Pair>, s: seq<byte>, t: seq<byte>)
    requires AllPairsEncodable(entries) && AllPairsEncodable(others) && |entries| == |others|
    requires Flatten(PairParts(entries)) + s == Flatten(PairParts(others)) + t
    ensures entries == others && s == t
    decreases entries, 0
  {
    if entries == [] {
      assert [] + s == s && [] + t == t;
    } else {
      var e, o, rest, rest' := entries[0], others[0], entries[1..], others[1..];
      UnconsPairs(entries, s);
      UnconsPairs(others, t);
      PairIsPrefixFree(e, o, Flatten(PairParts(rest)) + s, Flatten(PairParts(rest')) + t);
      PairsPrefixFree(rest, rest', s, t);
      assert entries == [e] + rest && others == [o] + rest';
    }
  }

  lemma {:induction false} PairIsPrefixFree(e: Pair, o: Pair, s: seq<byte>, t: seq<byte>)
    requires Encodable(e.key) && Encodable(e.val) && Encodable(o.key) && Encodable(o.val)
    requires Encode(e.key) + (Encode(e.val) + s) == Encode(o.key) + (Encode(o.val) + t)
    ensures e == o && s == t
    decreases e, 2
  {
    EncodingIsPrefixFree(e.key, o.key, Encode(e.val) + s, Encode(o.val) + t);
    EncodingIsPrefixFree(e.val, o.val, s, t);
  }

  lemma {:induction false} UnconsPairs(entries: seq<Pair>, s: seq<byte>)
    requires AllPairsEncodable(entries) && entries != []
    ensures AllPairsEncodable(entries[1..])
    ensures Flatten(PairParts(entries)) + s
         == Encode(entries[0].key) + (Encode(entries[0].val) + (Flatten(PairParts(entries[1..])) + s))
  {
    assert PairParts(entries)[1..] == PairParts(entries[1..]);
  }

  // ----- Progress, bounds and appended bytes -----

  /** `r`, read from position `pos` of `len` bytes, ends inside them and at least `least` bytes on. */
  ghost predicate Within<T>(r: Read<T>, pos: nat, least: nat, len: nat) {
    r.Ok? ==> pos + least <= r.value.1 <= len
  }

  /** Every successful read, of any bytes at any position, consumes at least one byte and stays inside the buffer. */
  lemma {:induction false} ReadAdvances(buf: seq<byte>, pos: nat, depth: nat)
    requires depth <= MAX_DEPTH + 1
    ensures Within(ReadItem(buf, pos, depth), pos, 1, |buf|)
    decreases MAX_DEPTH + 1 - depth, 0, 0
  {
    if depth <= MAX_DEPTH && pos < |buf| {
      var r := ReadLength(buf, pos + 1, buf[pos] as nat % 32);
      if r.Ok? {
        ItemsAdvance(buf, r.value.1, depth + 1, r.value.0, []);
        PairsAdvance(buf, r.value.1, depth + 1, r.value.0, []);
      }
    }
  }

  lemma {:induction false} ItemsAdvance(buf: seq<byte>, pos: nat, depth: nat, n: nat, done: seq<Value>)
    requires depth <= MAX_DEPTH + 1 && pos <= |buf|
    ensures Within(ReadItems(buf, pos, depth, n, done), pos, n, |buf|)
    decreases MAX_DEPTH + 1 - depth, 1, n
  {
    if n > 0 {
      ReadAdvances(buf, pos, depth);
      var r := ReadItem(buf, pos, depth);
      if r.Ok? { ItemsAdvance(buf, r.value.1, depth, n - 1, done + [r.value.0]); }
    }
  }

  lemma {:induction false} PairsAdvance(buf: seq<byte>, pos: nat, depth: nat, n: nat, done: seq<Pair>)
    requires depth <= MAX_DEPTH + 1 && pos <= |buf|
    ensures Within(ReadPairs(buf, pos, depth, n, done), pos, 2 * n, |buf|)
    decreases MAX_DEPTH + 1 - depth, 1, n
  {
    if n > 0 {
      ReadAdvances(buf, pos, depth);
      var k := ReadItem(buf, pos, depth);
      if k.Ok? { ReadAdvances(buf, k.value.1, depth); }
      var r := ReadPair(buf, pos, depth);
      if r.Ok? { PairsAdvance(buf, r.value.1, depth, n - 1, done + [r.value.0]); }
    }
  }

  /** Appended bytes change no successful read. */
  lemma {:induction false} ItemIgnoresSuffix(buf: seq<byte>, suffix: seq<byte>, pos: nat, depth: nat)
    requires depth <= MAX_DEPTH + 1 && ReadItem(buf, pos, depth).Ok?
    ensures ReadItem(buf + suffix, pos, depth) == ReadItem(buf, pos, depth)
    decreases MAX_DEPTH + 1 - depth, 0, 0
  {
    var major, minor := buf[pos] as nat / 32, buf[pos] as nat % 32;
    LengthIgnoresSuffix(buf, suffix, pos + 1, minor);
    var (n, p) := ReadLength(buf, pos + 1, minor).value;
    BodyIgnoresSuffix(buf, suffix, p, depth, major, n);
  }

  lemma {:induction false} LengthIgnoresSuffix(buf: seq<byte>, suffix: seq<byte>, pos: nat, minor: nat)
    requires pos <= |buf| && ReadLength(buf, pos, minor).Ok?
    ensures ReadLength(buf + suffix, pos, minor) == ReadLength(buf, pos, minor)
  {
    if minor >= 24 {
      assert (buf + suffix)[pos..pos + Width(minor)] == buf[pos..pos + Width(minor)];
    }
  }

  lemma {:induction false} BodyIgnoresSuffix(buf: seq<byte>, suffix: seq<byte>, p: nat, depth: nat, major: nat, n: nat)
    requires depth <= MAX_DEPTH && ReadBody(buf, p, depth, major, n).Ok?
    ensures ReadBody(buf + suffix, p, depth, major, n) == ReadBody(buf, p, depth, major, n)
    decreases MAX_DEPTH - depth, 2, 0
  {
    if major == 2 || major == 3 {
      assert (buf + suffix)[p..p + n] == buf[p..p + n];
    } else if major == 4 {
      ItemsIgnoreSuffix(buf, suffix, p, depth + 1, n, []);
    } else if major == 5 {
      PairsIgnoreSuffix(buf, suffix, p, depth + 1, n, []);
    }
  }

  lemma {:induction false} ItemsIgnoreSuffix(buf: seq<byte>, suffix: seq<byte>, pos: nat, depth: nat, n: nat, done: seq<Value>)
    requires depth <= MAX_DEPTH + 1 && ReadItems(buf, pos, depth, n, done).Ok?
    ensures ReadItems(buf + suffix, pos, depth, n, done) == ReadItems(buf, pos, depth, n, done)
    decreases MAX_DEPTH + 1 - depth, 1, n
  {
    if n > 0 {
      ItemIgnoresSuffix(buf, suffix, pos, depth);
      var (v, p) := ReadItem(buf, pos, depth).value;
      ItemsIgnoreSuffix(buf, suffix, p, depth, n - 1, done + [v]);
    }
  }

  lemma {:induction false} PairsIgnoreSuffix(buf: seq<byte>, suffix: seq<byte>, pos: nat, depth: nat, n: nat, done: seq<Pair>)
    requires depth <= MAX_DEPTH + 1 && ReadPairs(buf, pos, depth, n, done).Ok?
    ensures ReadPairs(buf + suffix, pos, depth, n, done) == ReadPairs(buf, pos, depth, n, done)
    decreases MAX_DEPTH + 1 - depth, 1, n
  {
    if n > 0 {
      ItemIgnoresSuffix(buf, suffix, pos, depth);
      ItemIgnoresSuffix(buf, suffix, ReadItem(buf, pos, depth).value.1, depth);
      var (e, p) := ReadPair(buf, pos, depth).value;
      PairsIgnoreSuffix(buf, suffix, p, depth, n - 1, done + [e]);
    }
  }
}
