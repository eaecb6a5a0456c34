/** Big-endian numbers and placement of byte strings in a buffer, shared by the codecs. */
module Bytes {
  import opened Prelude

  function Pow256(k: nat): (p: nat)
    ensures p > 0
  {
    if k == 0 then 1 else 256 * Pow256(k - 1)
  }

  /** readUIntBE over the whole of `s`. */
  function BigEndian(s: seq<byte>): nat {
    if s == [] then 0 else 256 * BigEndian(s[..|s| - 1]) + s[|s| - 1] as nat
  }

  lemma {:induction false} BigEndianBound(s: seq<byte>)
    ensures BigEndian(s) < Pow256(|s|)
  {
    if s != [] { BigEndianBound(s[..|s| - 1]); }
  }

  /** writeUIntBE: the low `k` bytes of `n`. */
  function ToBigEndian(n: nat, k: nat): (s: seq<byte>)
    ensures |s| == k
  {
    if k == 0 then [] else ToBigEndian(n / 256, k - 1) + [(n % 256) as byte]
  }

  lemma {:induction false} BigEndianReads(n: nat, k: nat)
    requires n < Pow256(k)
    ensures BigEndian(ToBigEndian(n, k)) == n
  {
    if k > 0 {
      BigEndianReads(n / 256, k - 1);
      var s := ToBigEndian(n, k);
      assert s[..|s| - 1] == ToBigEndian(n / 256, k - 1);
    }
  }

  lemma {:induction false} ToBigEndianReads(s: seq<byte>)
    ensures ToBigEndian(BigEndian(s), |s|) == s
  {
    if s != [] {
      ToBigEndianReads(s[..|s| - 1]);
      assert s == s[..|s| - 1] + [s[|s| - 1]];
    }
  }

  /** The widths the codecs use. */
  lemma {:induction false} Widths()
    ensures Pow256(1) == 0x100 && Pow256(2) == 0x1_0000 && Pow256(4) == 0x1_0000_0000
  {
    assert Pow256(3) == 0x100_0000;
  }

  /** A number of two parts. */
  lemma {:induction false} BigEndianConcat(a: seq<byte>, b: seq<byte>)
    ensures BigEndian(a + b) == BigEndian(a) * Pow256(|b|) + BigEndian(b)
    decreases |b|
  {
    if b == [] {
      assert a + b == a;
    } else {
      var init := b[..|b| - 1];
      assert (a + b)[..|a + b| - 1] == a + init;
      BigEndianConcat(a, init);
      Distribute(BigEndian(a), Pow256(|init|), BigEndian(init));
    }
  }

  lemma {:induction false} Distribute(x: nat, y: nat, z: nat)
    ensures 256 * (x * y + z) == x * (256 * y) + 256 * z
  {
  }

  /** `s` stands in the buffer at `pos`. */
  ghost predicate At(buf: seq<byte>, pos: nat, s: seq<byte>) {
    pos + |s| <= |buf| && forall i {:trigger s[i]} :: 0 <= i < |s| ==> s[i] == buf[pos + i]
  }

  lemma {:induction false} AtSlice(buf: seq<byte>, pos: nat, s: seq<byte>)
    requires At(buf, pos, s)
    ensures buf[pos..pos + |s|] == s
  {
  }

  lemma {:induction false} AtSplit(buf: seq<byte>, pos: nat, a: seq<byte>, b: seq<byte>)
    requires At(buf, pos, a + b)
    ensures At(buf, pos, a) && At(buf, pos + |a|, b)
  {
    var ab := a + b;
    assert forall i :: 0 <= i < |a| ==> a[i] == ab[i];
    forall i | 0 <= i < |b|
      ensures b[i] == buf[pos + |a| + i]
    {
      assert b[i] == ab[|a| + i];
    }
  }
}
