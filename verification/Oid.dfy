/**
 Object identifiers as DER content bytes (token-issuer/appattest.js, `encodeOid`). The extension
 search compares these bytes, so different identifiers must have different bytes. Section 8.19 of
 X.690 gives the base-128 form.
 */
module Oid {
  import opened Prelude

  /** `v >>= 7` on a number converted to 32 bits; what is not positive ends the loop. */
  function Shift7(v: nat): nat {
    var m := v % 0x1_0000_0000;
    if m >= 0x8000_0000 then 0 else m / 128
  }

  /** The digits above the last one, most significant first, each with the continuation bit. */
  function High(v: nat): seq<byte> {
    if v == 0 then [] else High(v / 128) + [(128 + v % 128) as byte]
  }

  function Arc(v: nat): seq<byte> {
    High(Shift7(v)) + [(v % 128) as byte]
  }

  function Arcs(parts: seq<nat>): seq<byte> {
    if parts == [] then [] else Arc(parts[0]) + Arcs(parts[1..])
  }

  function Encode(parts: seq<nat>): Option<seq<byte>> {
    if |parts| < 2 then None
    else Some([First(parts[0], parts[1])] + Arcs(parts[2..]))
  }

  /** The first two arcs in one byte. */
  function First(root: nat, second: nat): byte {
    ((40 * root + second) % 256) as byte
  }

  /** The digit loop of one arc. */
  method EncodeArc(part: nat) returns (stack: seq<byte>)
    ensures stack == Arc(part)
  {
    stack := [(part % 128) as byte];
    var v: nat := Shift7(part);
    while v > 0
      invariant Arc(part) == High(v) + stack
    {
      assert High(v) + stack == High(v / 128) + ([(128 + v % 128) as byte] + stack);
      stack := [(128 + v % 128) as byte] + stack;
      v := v / 128;
    }
    assert High(0) + stack == stack;
  }

  /** `encodeOid` on the parsed parts; None is its error. */
  method EncodeOid(parts: seq<nat>) returns (r: Option<seq<byte>>)
    ensures r == Encode(parts)
  {
    if |parts| < 2 { return None; }
    var bytes: seq<byte> := [First(parts[0], parts[1])];
    ghost var first := bytes;
    for i := 2 to |parts|
      invariant first + Arcs(parts[2..]) == bytes + Arcs(parts[i..])
    {
      var stack := EncodeArc(parts[i]);
      assert parts[i..][0] == parts[i] && parts[i..][1..] == parts[i + 1..];
      bytes := bytes + stack;
    }
    assert bytes + Arcs(parts[|parts|..]) == bytes;
    return Some(bytes);
  }

  // ----- An independent reader -----

  /** Digits accumulate in `acc`; one without the continuation bit ends an arc. */
  function ReadArcs(s: seq<byte>, acc: nat): seq<nat> {
    if s == [] then []
    else if s[0] >= 128 then ReadArcs(s[1..], acc * 128 + (s[0] as nat - 128))
    else [acc * 128 + s[0] as nat] + ReadArcs(s[1..], 0)
  }

  function Read(s: seq<byte>): seq<nat>
    requires s != []
  {
    [Root(s[0]), s[0] as nat - 40 * Root(s[0])] + ReadArcs(s[1..], 0)
  }

  function Root(b: byte): (r: nat)
    ensures 40 * r <= b as nat
  {
    if b < 40 then 0 else if b < 80 then 1 else 2
  }

  lemma {:induction false} HighReads(v: nat, rest: seq<byte>)
    ensures ReadArcs(High(v) + rest, 0) == ReadArcs(rest, v)
    decreases v
  {
    if v == 0 {
      assert High(v) + rest == rest;
    } else {
      var d: seq<byte> := [(128 + v % 128) as byte];
      assert High(v) + rest == High(v / 128) + (d + rest);
      HighReads(v / 128, d + rest);
      assert (d + rest)[1..] == rest;
    }
  }

  /** What an arc is written as, read back: a number of 31 bits. */
  function Cut(v: nat): nat {
    128 * Shift7(v) + v % 128
  }

  lemma {:induction false} CutIsExact(v: nat)
    ensures Cut(v) < 0x8000_0000 && Arc(Cut(v)) == Arc(v)
    ensures Cut(v) == v <==> v < 0x8000_0000
  {
    assert Shift7(Cut(v)) == Shift7(v) && Cut(v) % 128 == v % 128;
  }

  function CutAll(parts: seq<nat>): seq<nat> {
    seq(|parts|, i requires 0 <= i < |parts| => Cut(parts[i]))
  }

  lemma {:induction false} ArcsRead(parts: seq<nat>)
    ensures ReadArcs(Arcs(parts), 0) == CutAll(parts)
  {
    if parts != [] {
      var v, rest := parts[0], Arcs(parts[1..]);
      var last: seq<byte> := [(v % 128) as byte];
      assert Arcs(parts) == High(Shift7(v)) + (last + rest);
      HighReads(Shift7(v), last + rest);
      assert (last + rest)[1..] == rest;
      ArcsRead(parts[1..]);
      assert CutAll(parts) == [Cut(v)] + CutAll(parts[1..]);
    }
  }

  /** All arcs have 31 bits. */
  ghost predicate Small(parts: seq<nat>) {
    forall i :: 0 <= i < |parts| ==> parts[i] < 0x8000_0000
  }

  lemma {:induction false} CutAllIsExact(parts: seq<nat>)
    ensures Arcs(CutAll(parts)) == Arcs(parts)
    ensures Small(CutAll(parts)) && (CutAll(parts) == parts <==> Small(parts))
  {
    if parts != [] {
      var v, rest := parts[0], parts[1..];
      CutAllIsExact(rest);
      CutIsExact(v);
      assert CutAll(parts) == [Cut(v)] + CutAll(rest) && parts == [v] + rest;
    }
  }

  /**
   Identifiers the encoder can write: the first two arcs fit one byte without a second reading, and
   the others have 31 bits. X.660 allows more, such as 2.999.
   */
  ghost predicate Writable(parts: seq<nat>) {
    |parts| >= 2 && Rooted(parts[0], parts[1]) && Small(parts[2..])
  }

  predicate Rooted(root: nat, second: nat) {
    root <= 2 && 40 * root + second < 256 && (root < 2 ==> second < 40)
  }

  /** The first byte gives back the first two arcs exactly when they are rooted. */
  lemma {:induction false} RootReads(root: nat, second: nat)
    ensures var b := First(root, second);
            var r, q := Root(b), b as nat - 40 * Root(b);
            && Rooted(r, q) && First(r, q) == b && (r == root && q == second <==> Rooted(root, second))
  {
  }

  lemma {:induction false} EncodeSplit(root: nat, second: nat, tail: seq<nat>)
    ensures Encode([root, second] + tail) == Some([First(root, second)] + Arcs(tail))
    ensures Writable([root, second] + tail) <==> Rooted(root, second) && Small(tail)
  {
    assert ([root, second] + tail)[2..] == tail;
  }

  lemma {:induction false} ReadSplit(b: byte, tail: seq<nat>)
    ensures Read([b] + Arcs(tail)) == [Root(b), b as nat - 40 * Root(b)] + CutAll(tail)
  {
    assert ([b] + Arcs(tail))[1..] == Arcs(tail);
    ArcsRead(tail);
  }

  /**
   Exactness. Every encoding reads as a writable identifier with the same encoding, and as the
   identifier that was written if and only if that one is writable: an identifier that is not shares
   its bytes with one that is.
   */
  lemma {:induction false} ReadsBackExactlyWritable(parts: seq<nat>)
    requires |parts| >= 2
    ensures var s := Encode(parts).value;
            && s != [] && Writable(Read(s)) && Encode(Read(s)) == Encode(parts)
            && (Read(s) == parts <==> Writable(parts))
  {
    var root, second, tail := parts[0], parts[1], parts[2..];
    var b := First(root, second);
    var r, q: nat := Root(b), b as nat - 40 * Root(b);
    assert parts == [root, second] + tail;
    EncodeSplit(root, second, tail);
    ReadSplit(b, tail);
    RootReads(root, second);
    CutAllIsExact(tail);
    EncodeSplit(r, q, CutAll(tail));
    SameParts(r, q, CutAll(tail), root, second, tail);
  }

  lemma {:induction false} SameParts(a: nat, b: nat, s: seq<nat>, c: nat, d: nat, t: seq<nat>)
    ensures [a, b] + s == [c, d] + t <==> a == c && b == d && s == t
  {
    var p, q := [a, b] + s, [c, d] + t;
    assert p[0] == a && p[1] == b && p[2..] == s;
    assert q[0] == c && q[1] == d && q[2..] == t;
  }

  /** Among writable identifiers matching bytes mean the same identifier. */
  lemma {:induction false} OidIsInjective(p: seq<nat>, q: seq<nat>)
    requires Writable(p) && Writable(q) && Encode(p) == Encode(q)
    ensures p == q
  {
    ReadsBackExactlyWritable(p);
    ReadsBackExactlyWritable(q);
  }

  /** Neither condition can be dropped: 2.999 is written like 1.15, and an arc of 2^31 like the arc 0. */
  lemma {:induction false} UnwritableCollide()
    ensures Encode([2, 999]) == Encode([1, 15]) && Encode([1, 2, 0x8000_0000]) == Encode([1, 2, 0])
  {
    EncodeSplit(2, 999, []);
    EncodeSplit(1, 15, []);
    EncodeSplit(1, 2, [0x8000_0000]);
    EncodeSplit(1, 2, [0]);
    assert [2, 999] + [] == [2, 999] && [1, 15] + [] == [1, 15];
    assert [1, 2] + [0x8000_0000] == [1, 2, 0x8000_0000] && [1, 2] + [0] == [1, 2, 0];
    assert Arc(0x8000_0000) == Arc(0) by { assert Shift7(0x8000_0000) == Shift7(0) == 0; }
  }

  /** The one identifier the program encodes. */
  const APPLE_NONCE_OID: seq<nat> := [1, 2, 840, 113635, 100, 8, 2]

  /** The bytes the search looks for belong to no other writable identifier. */
  lemma {:induction false} AppleNonceIsUnambiguous(p: seq<nat>)
    requires |p| >= 2 && Encode(p) == Encode(APPLE_NONCE_OID)
    ensures Writable(APPLE_NONCE_OID) && (p == APPLE_NONCE_OID <==> Writable(p))
  {
    var tail: seq<nat> := [840, 113635, 100, 8, 2];
    assert APPLE_NONCE_OID == [1, 2] + tail;
    EncodeSplit(1, 2, tail);
    if Writable(p) { OidIsInjective(p, APPLE_NONCE_OID); }
  }
}
