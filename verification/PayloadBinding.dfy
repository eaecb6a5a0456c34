/**
 The hash preimage that ties a batch of blinded messages to an epoch
 (token-issuer/server.js, `expectedClientDataHash` and `boundEpoch`).
 */
module PayloadBinding {
  import opened Prelude

  /** RSA-2048 modulus size; every blinded message has exactly this many bytes. */
  const MESSAGE_BYTES := 256

  /** String(n) for a non-negative integer, as ASCII. */
  function DecimalNat(n: nat): seq<byte> {
    if n < 10 then [(48 + n) as byte] else DecimalNat(n / 10) + [(48 + n % 10) as byte]
  }

  /** String(n), as UTF-8. */
  function Decimal(n: int): seq<byte> {
    if n < 0 then [45] + DecimalNat(-n) else DecimalNat(n)
  }

  /** Each message preceded by its 0x00 separator. */
  function Frames(blinded: seq<seq<byte>>): seq<byte> {
    if blinded == [] then [] else Frames(blinded[..|blinded| - 1]) + [0] + blinded[|blinded| - 1]
  }

  function Preimage(epoch: int, blinded: seq<seq<byte>>): seq<byte> {
    Decimal(epoch) + Frames(blinded)
  }

  predicate AllFullSize(blinded: seq<seq<byte>>) {
    forall i :: 0 <= i < |blinded| ==> |blinded[i]| == MESSAGE_BYTES
  }

  /** The loop that feeds the hash. */
  method FeedHash(epoch: int, blinded: seq<seq<byte>>) returns (fed: seq<byte>)
    ensures fed == Preimage(epoch, blinded)
  {
    fed := Decimal(epoch);
    for i := 0 to |blinded|
      invariant fed == Preimage(epoch, blinded[..i])
    {
      fed := fed + [0];
      fed := fed + blinded[i];
      assert blinded[..i + 1][..i] == blinded[..i];
    }
    assert blinded[..|blinded|] == blinded;
  }

  // ----- String(n) is injective and contains no 0x00 -----

  ghost function NatOf(digits: seq<byte>): int {
    if digits == [] then 0 else 10 * NatOf(digits[..|digits| - 1]) + (digits[|digits| - 1] as int - 48)
  }

  lemma {:induction false} DecimalNatReads(n: nat)
    ensures NatOf(DecimalNat(n)) == n
    ensures |DecimalNat(n)| > 0
    ensures forall i :: 0 <= i < |DecimalNat(n)| ==> 48 <= DecimalNat(n)[i] <= 57
  {
    if n >= 10 {
      DecimalNatReads(n / 10);
      var s := DecimalNat(n);
      assert s[..|s| - 1] == DecimalNat(n / 10);
    } else {
      assert DecimalNat(n)[..0] == [];
    }
  }

  lemma DecimalHasNoZero(n: int)
    ensures |Decimal(n)| > 0
    ensures forall i :: 0 <= i < |Decimal(n)| ==> Decimal(n)[i] != 0
  {
    DecimalNatReads(if n < 0 then -n else n);
  }

  lemma SignIsFirst(n: int)
    ensures |Decimal(n)| > 0 && (Decimal(n)[0] == 45 <==> n < 0)
  {
    DecimalNatReads(if n < 0 then -n else n);
  }

  lemma DecimalInjective(m: int, n: int)
    requires Decimal(m) == Decimal(n)
    ensures m == n
  {
    SignIsFirst(m);
    SignIsFirst(n);
    DecimalNatReads(if m < 0 then -m else m);
    DecimalNatReads(if n < 0 then -n else n);
    if m < 0 {
      assert Decimal(m)[1..] == DecimalNat(-m) && Decimal(n)[1..] == DecimalNat(-n);
    }
  }

  // ----- The preimage is injective on full-size batches -----

  lemma {:induction false} FramesLength(blinded: seq<seq<byte>>)
    requires AllFullSize(blinded)
    ensures |Frames(blinded)| == (MESSAGE_BYTES + 1) * |blinded|
    ensures blinded != [] ==> Frames(blinded)[0] == 0
  {
    if blinded != [] { FramesLength(blinded[..|blinded| - 1]); }
  }

  lemma {:induction false} FramesInjective(a: seq<seq<byte>>, b: seq<seq<byte>>)
    requires AllFullSize(a) && AllFullSize(b)
    requires Frames(a) == Frames(b)
    ensures a == b
  {
    FramesLength(a);
    FramesLength(b);
    assert |a| == |b|;
    if a != [] {
      var n := |a| - 1;
      FramesLength(a[..n]);
      FramesLength(b[..n]);
      var cut := |Frames(a[..n])|;
      assert Frames(a)[..cut] == Frames(a[..n]) && Frames(b)[..cut] == Frames(b[..n]);
      assert Frames(a)[cut + 1..] == a[n] && Frames(b)[cut + 1..] == b[n];
      FramesInjective(a[..n], b[..n]);
      assert a == a[..n] + [a[n]] && b == b[..n] + [b[n]];
    }
  }

  lemma FramesStart(blinded: seq<seq<byte>>)
    requires blinded != []
    ensures |Frames(blinded)| > 0 && Frames(blinded)[0] == 0
    decreases |blinded|
  {
    var init := blinded[..|blinded| - 1];
    if init != [] { FramesStart(init); }
  }

  /** The first 0x00 of a preimage ends its epoch, whatever the messages. */
  lemma EpochEndsAtFirstZero(m: int, a: seq<seq<byte>>, n: int, b: seq<seq<byte>>)
    requires Preimage(m, a) == Preimage(n, b)
    ensures |Decimal(m)| <= |Decimal(n)|
  {
    DecimalHasNoZero(m);
    if b != [] {
      FramesStart(b);
      assert Preimage(n, b)[|Decimal(n)|] == Frames(b)[0];
    }
  }

  /** So the epoch can always be told from the preimage; only the batch may be ambiguous. */
  lemma EpochIsDetermined(m: int, a: seq<seq<byte>>, n: int, b: seq<seq<byte>>)
    requires Preimage(m, a) == Preimage(n, b)
    ensures m == n && Frames(a) == Frames(b)
  {
    EpochEndsAtFirstZero(m, a, n, b);
    EpochEndsAtFirstZero(n, b, m, a);
    var k := |Decimal(m)|;
    assert Preimage(m, a)[..k] == Decimal(m) && Preimage(n, b)[..k] == Decimal(n);
    assert Preimage(m, a)[k..] == Frames(a) && Preimage(n, b)[k..] == Frames(b);
    DecimalInjective(m, n);
  }

  /** Two (epoch, batch) pairs of full-size messages give the same bytes only if they are equal. */
  lemma PreimageInjective(m: int, a: seq<seq<byte>>, n: int, b: seq<seq<byte>>)
    requires AllFullSize(a) && AllFullSize(b)
    requires Preimage(m, a) == Preimage(n, b)
    ensures m == n && a == b
  {
    EpochIsDetermined(m, a, n, b);
    FramesInjective(a, b);
  }

  // ----- Without the length check -----

  /** At least two messages, or a 0x00 inside one. */
  ghost predicate Divisible(blinded: seq<seq<byte>>) {
    |blinded| >= 2 || exists i :: 0 <= i < |blinded| && 0 in blinded[i]
  }

  lemma {:induction false} FramesConcat(a: seq<seq<byte>>, b: seq<seq<byte>>)
    ensures Frames(a + b) == Frames(a) + Frames(b)
    decreases |b|
  {
    if b == [] {
      assert a + b == a;
    } else {
      var init, last := b[..|b| - 1], b[|b| - 1];
      assert (a + b)[..|a + b| - 1] == a + init;
      FramesConcat(a, init);
    }
  }

  lemma {:induction false} FramesOfOne(m: seq<byte>)
    ensures Frames([m]) == [0] + m
  {
    assert [m][..0] == [];
  }

  lemma {:induction false} FramesOfTwo(x: seq<byte>, y: seq<byte>)
    ensures Frames([x, y]) == [0] + (x + [0] + y) == Frames([x + [0] + y])
  {
    assert [x, y] == [x] + [y];
    FramesConcat([x], [y]);
    FramesOfOne(x);
    FramesOfOne(y);
    FramesOfOne(x + [0] + y);
  }

  /** Two messages side by side are framed like the one message that joins them with a separator. */
  lemma {:induction false} JoinedAlike(before: seq<seq<byte>>, x: seq<byte>, y: seq<byte>, after: seq<seq<byte>>)
    ensures Frames(before + [x, y] + after) == Frames(before + [x + [0] + y] + after)
  {
    FramesOfTwo(x, y);
    FramesConcat(before + [x, y], after);
    FramesConcat(before, [x, y]);
    FramesConcat(before + [x + [0] + y], after);
    FramesConcat(before, [x + [0] + y]);
  }

  /** A batch that is divisible shares its bytes with another one. */
  lemma {:induction false} DivisibleIsAmbiguous(blinded: seq<seq<byte>>) returns (other: seq<seq<byte>>)
    requires Divisible(blinded)
    ensures other != blinded && Frames(other) == Frames(blinded)
  {
    if |blinded| >= 2 {
      var x, y, after := blinded[0], blinded[1], blinded[2..];
      other := [] + [x + [0] + y] + after;
      assert blinded == [] + [x, y] + after;
      JoinedAlike([], x, y, after);
    } else {
      var i :| 0 <= i < |blinded| && 0 in blinded[i];
      var k :| 0 <= k < |blinded[i]| && blinded[i][k] == 0;
      var x, y := blinded[i][..k], blinded[i][k + 1..];
      other := [] + [x, y] + [];
      assert x + [0] + y == blinded[i] && blinded == [] + [x + [0] + y] + [];
      JoinedAlike([], x, y, []);
    }
  }

  /** At most one message without a 0x00 is the only batch with its bytes. */
  lemma {:induction false} IndivisibleIsUnique(a: seq<seq<byte>>, b: seq<seq<byte>>)
    requires !Divisible(a) && Frames(a) == Frames(b)
    ensures a == b
  {
    if a == [] {
      if b != [] { FramesStart(b); }
    } else {
      var m := a[0];
      assert a == [m];
      FramesOfOne(m);
      if |b| >= 2 {
        ManyHaveInnerZero(b);
      } else if |b| == 1 {
        assert b == [b[0]];
        FramesOfOne(b[0]);
        assert m == Frames(a)[1..] && b[0] == Frames(b)[1..];
      }
    }
  }

  lemma {:induction false} ManyHaveInnerZero(b: seq<seq<byte>>)
    requires |b| >= 2
    ensures exists k :: 0 < k < |Frames(b)| && Frames(b)[k] == 0
  {
    var last := b[|b| - 1];
    FramesStart(b[..|b| - 1]);
    var k := |Frames(b[..|b| - 1])|;
    assert Frames(b)[k] == 0;
  }

  /** The separators alone do not make the preimage unambiguous: the length check is needed. */
  lemma AmbiguousWithoutLengthCheck(epoch: int)
    ensures Preimage(epoch, [[1], [2]]) == Preimage(epoch, [[1, 0, 2]])
  {
    var x: seq<byte>, y: seq<byte>, joined: seq<byte> := [1], [2], [1, 0, 2];
    assert x + [0] + y == joined;
    FramesOfTwo(x, y);
  }

  /**
   Without the length check, the exact condition: an (epoch, batch) pair shares its preimage with another
   pair if and only if the batch has at least two messages or a message with a 0x00 in it.
   */
  lemma {:induction false} AmbiguousExactlyWhenDivisible(epoch: int, blinded: seq<seq<byte>>)
    ensures (exists n, other :: Preimage(n, other) == Preimage(epoch, blinded) && !(n == epoch && other == blinded))
            <==> Divisible(blinded)
  {
    if Divisible(blinded) {
      var other := DivisibleIsAmbiguous(blinded);
      assert Preimage(epoch, other) == Preimage(epoch, blinded);
    }
    if n, other :| Preimage(n, other) == Preimage(epoch, blinded) && !(n == epoch && other == blinded) {
      EpochIsDetermined(n, other, epoch, blinded);
      if !Divisible(blinded) { IndivisibleIsUnique(blinded, other); }
    }
  }

  // ----- boundEpoch -----

  /** The search over the current and the previous epoch. `got` is None when the client sent no
      string. */
  function BoundEpoch(hash: seq<byte> -> seq<byte>, got: Option<seq<byte>>, blinded: seq<seq<byte>>, epoch: int): Option<int> {
    if got.None? || |got.value| != 32 then None
    else if got.value == hash(Preimage(epoch, blinded)) then Some(epoch)
    else if got.value == hash(Preimage(epoch - 1, blinded)) then Some(epoch - 1)
    else None
  }

  /** The hash does not collide between what the client hashed and what the issuer recomputes. */
  ghost predicate NoCollision(hash: seq<byte> -> seq<byte>, p: seq<byte>, q: seq<byte>) {
    hash(p) == hash(q) ==> p == q
  }

  /**
   A client that hashed (clientEpoch, clientBatch) is matched exactly when the batch presented is
   the one it hashed and its epoch is the current or the previous one, and then with its epoch:
   the match is unique.
   */
  lemma BoundEpochIsExact(hash: seq<byte> -> seq<byte>, clientEpoch: int, clientBatch: seq<seq<byte>>,
                          blinded: seq<seq<byte>>, epoch: int)
    requires AllFullSize(clientBatch) && AllFullSize(blinded)
    requires |hash(Preimage(clientEpoch, clientBatch))| == 32
    requires NoCollision(hash, Preimage(clientEpoch, clientBatch), Preimage(epoch, blinded))
    requires NoCollision(hash, Preimage(clientEpoch, clientBatch), Preimage(epoch - 1, blinded))
    ensures BoundEpoch(hash, Some(hash(Preimage(clientEpoch, clientBatch))), blinded, epoch)
            == if clientBatch == blinded && (clientEpoch == epoch || clientEpoch == epoch - 1) then Some(clientEpoch) else None
  {
    if Preimage(clientEpoch, clientBatch) == Preimage(epoch, blinded) {
      PreimageInjective(clientEpoch, clientBatch, epoch, blinded);
    } else if Preimage(clientEpoch, clientBatch) == Preimage(epoch - 1, blinded) {
      PreimageInjective(clientEpoch, clientBatch, epoch - 1, blinded);
    }
  }
}
