/**
 WebAuthn authenticator data and the COSE key inside it (token-issuer/appattest.js,
 `parseAuthenticatorData` and `coseKeyToEcPublicKey`) against their builders in
 token-issuer/appattest-fixtures.js. Section 6.1 of Web Authentication Level 2 gives the layout and
 section 7.1.1 of RFC 9053 the key. Whether a point lies on P-256 is a parameter.
 */
module AuthData {
  import opened Prelude
  import opened Bytes
  import opened Cbor
  import CborGrammar

  type Curve = (seq<byte>, seq<byte>) -> bool

  datatype CoseError = NotMap | BadKty | BadAlg | BadCrv | BadX | BadY | OffCurve

  datatype AuthError = TooShort | AttestedTruncated | CredentialIdTruncated | BadCbor(cbor: Cbor.Error) | BadCose(cose: CoseError)

  datatype Credential = Credential(aaguid: seq<byte>, credentialId: seq<byte>, rawPoint: seq<byte>)

  datatype Parsed = Parsed(rpIdHash: seq<byte>, flags: byte, signCount: nat, credential: Option<Credential>)

  // ----- The COSE key -----

  /** Map.prototype.get with an integer key. */
  function Get(entries: seq<Pair>, k: int): Option<Value> {
    if entries == [] then None
    else if entries[0].key == Int(k) then Some(entries[0].val)
    else Get(entries[1..], k)
  }

  predicate Is32Bytes(v: Option<Value>) {
    v.Some? && v.value.Bytes? && |v.value.b| == 32
  }

  /** The uncompressed point 0x04 || X || Y. */
  function RawPoint(x: seq<byte>, y: seq<byte>): seq<byte> {
    [4] + x + y
  }

  /** The checks of `coseKeyToEcPublicKey`, in its order. */
  function ParseCose(v: Value, onCurve: Curve): Result<seq<byte>, CoseError> {
    if !v.Obj? then Err(NotMap)
    else
      var x, y := Get(v.entries, -2), Get(v.entries, -3);
      if Get(v.entries, 1) != Some(Int(2)) then Err(BadKty)
      else if Get(v.entries, 3) != Some(Int(-7)) then Err(BadAlg)
      else if Get(v.entries, -1) != Some(Int(1)) then Err(BadCrv)
      else if !Is32Bytes(x) then Err(BadX)
      else if !Is32Bytes(y) then Err(BadY)
      else if !onCurve(x.value.b, y.value.b) then Err(OffCurve)
      else Ok(RawPoint(x.value.b, y.value.b))
  }

  /** The map that `coseKeyFor` writes. */
  function CoseEntries(x: seq<byte>, y: seq<byte>): seq<Pair> {
    [Pair(Int(1), Int(2)), Pair(Int(3), Int(-7)), Pair(Int(-1), Int(1)), Pair(Int(-2), Bytes(x)), Pair(Int(-3), Bytes(y))]
  }

  lemma {:induction false} CoseGets(x: seq<byte>, y: seq<byte>)
    ensures var e := CoseEntries(x, y);
            && Get(e, 1) == Some(Int(2)) && Get(e, 3) == Some(Int(-7)) && Get(e, -1) == Some(Int(1))
            && Get(e, -2) == Some(Bytes(x)) && Get(e, -3) == Some(Bytes(y))
  {
    var e := CoseEntries(x, y);
    assert e[1..][1..] == e[2..] && e[2..][1..] == e[3..] && e[3..][1..] == e[4..];
    assert Get(e[3..], -2) == Some(Bytes(x)) && Get(e[4..], -3) == Get(e[3..], -3) == Some(Bytes(y));
    forall k | k in {-1, -2, -3} ensures Get(e, k) == Get(e[2..], k) {
      assert Get(e, k) == Get(e[1..], k) == Get(e[1..][1..], k);
    }
    forall k | k in {-2, -3} ensures Get(e[2..], k) == Get(e[3..], k) {
      assert Get(e[2..], k) == Get(e[2..][1..], k);
    }
  }

  lemma {:induction false} CoseEncodable(x: seq<byte>, y: seq<byte>)
    requires |x| == |y| == 32
    ensures Encodable(Obj(CoseEntries(x, y))) && FitsAt(Obj(CoseEntries(x, y)), 0)
  {
    var e := CoseEntries(x, y);
    assert SimpleDistinctKeys(e) by {
      assert e[..1][..0] == [] && e[..2][..1] == e[..1] && e[..3][..2] == e[..2] && e[..4][..3] == e[..3] && e[..5] == e;
      assert SimpleDistinctKeys(e[..1]);
      assert SimpleDistinctKeys(e[..2]);
      assert SimpleDistinctKeys(e[..3]);
      assert SimpleDistinctKeys(e[..4]);
    }
    forall i | 0 <= i < |e|
      ensures Encodable(e[i].key) && Encodable(e[i].val) && FitsAt(e[i].key, 1) && FitsAt(e[i].val, 1)
    {
      assert e[i].key.Int? && (e[i].val.Int? || e[i].val.Bytes?);
    }
  }

  /** `coseKeyFor`. */
  ghost function CoseKey(x: seq<byte>, y: seq<byte>): seq<byte>
    requires |x| == |y| == 32
  {
    CoseEncodable(x, y);
    Encode(Obj(CoseEntries(x, y)))
  }

  // ----- Authenticator data -----

  /** Bit 6 of the flags: attested credential data follow. */
  predicate HasAT(flags: byte) {
    flags as nat / 64 % 2 == 1
  }

  function ParseCredential(d: seq<byte>, onCurve: Curve): Result<Credential, AuthError>
    requires |d| >= 37
  {
    if |d| < 55 then Err(AttestedTruncated)
    else
      var end := 55 + BigEndian(d[53..55]);
      if end > |d| then Err(CredentialIdTruncated)
      else match DecodeFirst(d[end..])
        case Err(e) => Err(BadCbor(e))
        case Ok((key, _)) =>
          match ParseCose(key, onCurve)
          case Err(e) => Err(BadCose(e))
          case Ok(point) => Ok(Credential(d[37..53], d[55..end], point))
  }

  /** `parseAuthenticatorData`; `attested` is its attestedCredentialData option. */
  function Parse(d: seq<byte>, attested: bool, onCurve: Curve): Result<Parsed, AuthError> {
    if |d| < 37 then Err(TooShort)
    else
      var flags, signCount := d[32], BigEndian(d[33..37]);
      if attested && HasAT(flags) then
        match ParseCredential(d, onCurve)
        case Err(e) => Err(e)
        case Ok(c) => Ok(Parsed(d[..32], flags, signCount, Some(c)))
      else Ok(Parsed(d[..32], flags, signCount, None))
  }

  /** The parser with its moving offset computes Parse. */
  method ParseAuthenticatorData(d: seq<byte>, attested: bool, onCurve: Curve) returns (r: Result<Parsed, AuthError>)
    ensures r == Parse(d, attested, onCurve)
  {
    if |d| < 37 { return Err(TooShort); }
    var out := Parsed(d[..32], d[32], BigEndian(d[33..37]), None);
    if attested && HasAT(d[32]) {
      var off := 37;
      if off + 18 > |d| { return Err(AttestedTruncated); }
      var aaguid := d[off..off + 16];
      off := off + 16;
      var credIdLen := BigEndian(d[off..off + 2]);
      off := off + 2;
      if off + credIdLen > |d| { return Err(CredentialIdTruncated); }
      var credentialId := d[off..off + credIdLen];
      off := off + credIdLen;
      var reader := new Reader(d[off..]);
      var key := reader.Item(0);
      if key.Err? { return Err(BadCbor(key.error)); }
      var point := ParseCose(key.value, onCurve);
      if point.Err? { return Err(BadCose(point.error)); }
      out := out.(credential := Some(Credential(aaguid, credentialId, point.value)));
    }
    return Ok(out);
  }

  /** The fixed 37 bytes: `buildAssertionAuthData`, and the head of the attestation. */
  function Fixed(rpIdHash: seq<byte>, flags: byte, signCount: nat): seq<byte> {
    rpIdHash + [flags] + ToBigEndian(signCount, 4)
  }

  /** `aaguidBuf` and `expectedAaguid`: the label cut or zero-padded to 16 bytes. */
  function Aaguid(label16: seq<byte>): (a: seq<byte>)
    ensures |a| == 16
  {
    seq(16, i requires 0 <= i < 16 => if i < |label16| then label16[i] else 0)
  }

  /** What `buildAttestationAuthData` demands. */
  ghost predicate Buildable(rpIdHash: seq<byte>, signCount: nat, id: seq<byte>, x: seq<byte>, y: seq<byte>) {
    |rpIdHash| == 32 && signCount < 0x1_0000_0000 && |id| < 0x1_0000 && |x| == |y| == 32
  }

  ghost function BuildAttestation(rpIdHash: seq<byte>, flags: byte, signCount: nat, label16: seq<byte>,
                                  id: seq<byte>, x: seq<byte>, y: seq<byte>): seq<byte>
    requires Buildable(rpIdHash, signCount, id, x, y)
  {
    Fixed(rpIdHash, flags, signCount) + Aaguid(label16) + ToBigEndian(|id|, 2) + id + CoseKey(x, y)
  }

  // ----- Round trips -----

  lemma {:induction false} FixedReads(d: seq<byte>, rpIdHash: seq<byte>, flags: byte, signCount: nat)
    requires |rpIdHash| == 32 && signCount < 0x1_0000_0000 && At(d, 0, Fixed(rpIdHash, flags, signCount))
    ensures d[..32] == rpIdHash && d[32] == flags && BigEndian(d[33..37]) == signCount
  {
    var n := ToBigEndian(signCount, 4);
    AtSplit(d, 0, rpIdHash + [flags], n);
    AtSplit(d, 0, rpIdHash, [flags]);
    AtSlice(d, 0, rpIdHash);
    AtSlice(d, 33, n);
    assert [flags][0] == d[32];
    Widths();
    BigEndianReads(signCount, 4);
  }

  /**
   Assertion round trip: whatever the flags and whatever follows, an assertion parser that expects
   no credential returns the three fields.
   */
  lemma {:induction false} AssertionRoundTrip(rpIdHash: seq<byte>, flags: byte, signCount: nat, suffix: seq<byte>, onCurve: Curve)
    requires |rpIdHash| == 32 && signCount < 0x1_0000_0000
    ensures Parse(Fixed(rpIdHash, flags, signCount) + suffix, false, onCurve) == Ok(Parsed(rpIdHash, flags, signCount, None))
  {
    FixedReads(Fixed(rpIdHash, flags, signCount) + suffix, rpIdHash, flags, signCount);
  }

  /** With the credential expected, such an assertion is refused exactly when its AT bit is set. */
  lemma {:induction false} AssertionNeedsTheOption(rpIdHash: seq<byte>, flags: byte, signCount: nat, onCurve: Curve)
    requires |rpIdHash| == 32 && signCount < 0x1_0000_0000
    ensures Parse(Fixed(rpIdHash, flags, signCount), true, onCurve) ==
            if HasAT(flags) then Err(AttestedTruncated) else Ok(Parsed(rpIdHash, flags, signCount, None))
  {
    FixedReads(Fixed(rpIdHash, flags, signCount), rpIdHash, flags, signCount);
  }

  /** The COSE key, followed by anything, is read back as its point exactly when the point is on the curve. */
  lemma {:induction false} CoseRoundTrip(x: seq<byte>, y: seq<byte>, suffix: seq<byte>, onCurve: Curve)
    requires |x| == |y| == 32
    ensures var r := DecodeFirst(CoseKey(x, y) + suffix);
            r.Ok? && ParseCose(r.value.0, onCurve) == if onCurve(x, y) then Ok(RawPoint(x, y)) else Err(OffCurve)
  {
    CoseEncodable(x, y);
    RoundTrip(Obj(CoseEntries(x, y)), suffix);
    CoseGets(x, y);
  }

  /** The layout after the fixed part. */
  lemma {:induction false} CredentialReads(d: seq<byte>, label16: seq<byte>, id: seq<byte>, rest: seq<byte>)
    requires |id| < 0x1_0000 && |d| >= 37 && d[37..] == Aaguid(label16) + ToBigEndian(|id|, 2) + id + rest
    ensures |d| >= 55 + |id| && d[37..53] == Aaguid(label16) && BigEndian(d[53..55]) == |id|
    ensures d[55..55 + |id|] == id && d[55 + |id|..] == rest
  {
    var t, n := d[37..], ToBigEndian(|id|, 2);
    assert d[37..53] == t[..16] && d[53..55] == t[16..18] == n;
    assert d[55..55 + |id|] == t[18..18 + |id|] && d[55 + |id|..] == t[18 + |id|..];
    Widths();
    BigEndianReads(|id|, 2);
  }

  /**
   Attestation round trip, field by field and whatever follows: the parser returns what was built,
   leaves the credential out exactly when the AT bit is off or it was not asked for, and refuses
   exactly the points off the curve.
   */
  lemma {:induction false} AttestationRoundTrip(rpIdHash: seq<byte>, flags: byte, signCount: nat, label16: seq<byte>,
                                               id: seq<byte>, x: seq<byte>, y: seq<byte>, suffix: seq<byte>,
                                               attested: bool, onCurve: Curve)
    requires Buildable(rpIdHash, signCount, id, x, y)
    ensures Parse(BuildAttestation(rpIdHash, flags, signCount, label16, id, x, y) + suffix, attested, onCurve) ==
            if !attested || !HasAT(flags) then Ok(Parsed(rpIdHash, flags, signCount, None))
            else if !onCurve(x, y) then Err(BadCose(OffCurve))
            else Ok(Parsed(rpIdHash, flags, signCount, Some(Credential(Aaguid(label16), id, RawPoint(x, y)))))
  {
    var fixed, mid, key := Fixed(rpIdHash, flags, signCount), Aaguid(label16) + ToBigEndian(|id|, 2) + id, CoseKey(x, y);
    var d := BuildAttestation(rpIdHash, flags, signCount, label16, id, x, y) + suffix;
    assert d == fixed + (mid + (key + suffix));
    CoseRoundTrip(x, y, suffix, onCurve);
    LayoutReads(d, rpIdHash, flags, signCount, label16, id, key + suffix, attested, onCurve,
                if onCurve(x, y) then Ok(RawPoint(x, y)) else Err(OffCurve));
  }

  /** The parser over any key bytes that decode. */
  lemma {:induction false} LayoutReads(d: seq<byte>, rpIdHash: seq<byte>, flags: byte, signCount: nat, label16: seq<byte>,
                                      id: seq<byte>, rest: seq<byte>, attested: bool, onCurve: Curve, point: Result<seq<byte>, CoseError>)
    requires |rpIdHash| == 32 && signCount < 0x1_0000_0000 && |id| < 0x1_0000
    requires d == Fixed(rpIdHash, flags, signCount) + (Aaguid(label16) + ToBigEndian(|id|, 2) + id + rest)
    requires DecodeFirst(rest).Ok? && ParseCose(DecodeFirst(rest).value.0, onCurve) == point
    ensures Parse(d, attested, onCurve) ==
            if !attested || !HasAT(flags) then Ok(Parsed(rpIdHash, flags, signCount, None))
            else match point
              case Err(e) => Err(BadCose(e))
              case Ok(p) => Ok(Parsed(rpIdHash, flags, signCount, Some(Credential(Aaguid(label16), id, p))))
  {
    FixedReads(d, rpIdHash, flags, signCount);
    CredentialReads(d, label16, id, rest);
  }

  /** Two attestations with the same bytes carry the same fields. */
  lemma {:induction false} AttestationIsInjective(h: seq<byte>, h': seq<byte>, flags: byte, flags': byte, n: nat, n': nat,
                                                 a: seq<byte>, a': seq<byte>, id: seq<byte>, id': seq<byte>,
                                                 x: seq<byte>, y: seq<byte>, x': seq<byte>, y': seq<byte>)
    requires Buildable(h, n, id, x, y) && Buildable(h', n', id', x', y') && HasAT(flags)
    requires BuildAttestation(h, flags, n, a, id, x, y) == BuildAttestation(h', flags', n', a', id', x', y')
    ensures h == h' && flags == flags' && n == n' && Aaguid(a) == Aaguid(a') && id == id' && x == x' && y == y'
  {
    var any := (_: seq<byte>, _: seq<byte>) => true;
    var d := BuildAttestation(h, flags, n, a, id, x, y);
    assert d + [] == d;
    AttestationRoundTrip(h, flags, n, a, id, x, y, [], true, any);
    AttestationRoundTrip(h', flags', n', a', id', x', y', [], true, any);
    assert RawPoint(x, y) == RawPoint(x', y');
    assert x == RawPoint(x, y)[1..33] && y == RawPoint(x, y)[33..];
    assert x' == RawPoint(x', y')[1..33] && y' == RawPoint(x', y')[33..];
  }

  /** The key bytes spell a map with the five bindings of an EC2 key on P-256, and `point` is its point. */
  ghost predicate SpellsKey(s: seq<byte>, point: seq<byte>, onCurve: Curve) {
    exists entries, x, y ::
      && CborGrammar.Spells(s, Obj(entries), 0) && IsKey(entries, x, y)
      && onCurve(x, y) && point == RawPoint(x, y)
  }

  ghost predicate IsKey(entries: seq<Pair>, x: seq<byte>, y: seq<byte>) {
    && |x| == |y| == 32
    && Get(entries, 1) == Some(Int(2)) && Get(entries, 3) == Some(Int(-7)) && Get(entries, -1) == Some(Int(1))
    && Get(entries, -2) == Some(Bytes(x)) && Get(entries, -3) == Some(Bytes(y))
  }

  /** A key parses exactly when some prefix of the bytes spells it. */
  lemma {:induction false} KeyParsesExactly(s: seq<byte>, point: seq<byte>, onCurve: Curve)
    ensures (DecodeFirst(s).Ok? && ParseCose(DecodeFirst(s).value.0, onCurve) == Ok(point))
            <==> exists end :: 0 <= end <= |s| && SpellsKey(s[..end], point, onCurve)
  {
    if DecodeFirst(s).Ok? && ParseCose(DecodeFirst(s).value.0, onCurve) == Ok(point) {
      var end := ParsedKeyIsSpelled(s, point, onCurve);
    }
    if end :| 0 <= end <= |s| && SpellsKey(s[..end], point, onCurve) {
      var entries, x, y :|
        && CborGrammar.Spells(s[..end], Obj(entries), 0) && IsKey(entries, x, y) && onCurve(x, y) && point == RawPoint(x, y);
      assert s[0..end] == s[..end];
      CborGrammar.ReadsExactlySpelled(s, 0, 0, Obj(entries), end);
      SpelledKeyParses(entries, x, y, onCurve);
    }
  }

  lemma {:induction false} ParsedKeyIsSpelled(s: seq<byte>, point: seq<byte>, onCurve: Curve) returns (end: nat)
    requires DecodeFirst(s).Ok? && ParseCose(DecodeFirst(s).value.0, onCurve) == Ok(point)
    ensures end <= |s| && SpellsKey(s[..end], point, onCurve)
  {
    var v := DecodeFirst(s).value.0;
    end := DecodeFirst(s).value.1;
    ReadAdvances(s, 0, 0);
    CborGrammar.ReadsExactlySpelled(s, 0, 0, v, end);
    assert s[0..end] == s[..end];
    KeyFields(v, point, onCurve);
  }

  lemma {:induction false} KeyFields(v: Value, point: seq<byte>, onCurve: Curve)
    requires ParseCose(v, onCurve) == Ok(point)
    ensures v.Obj? && exists x, y :: IsKey(v.entries, x, y) && onCurve(x, y) && point == RawPoint(x, y)
  {
    assert IsKey(v.entries, Get(v.entries, -2).value.b, Get(v.entries, -3).value.b);
  }

  lemma {:induction false} SpelledKeyParses(entries: seq<Pair>, x: seq<byte>, y: seq<byte>, onCurve: Curve)
    requires IsKey(entries, x, y) && onCurve(x, y)
    ensures ParseCose(Obj(entries), onCurve) == Ok(RawPoint(x, y))
  {
  }

  /**
   The converse, for arbitrary bytes: a successful parse names the bytes it read. Printing the parsed
   fields gives back the beginning of the input, what follows begins with a spelling of the key, and
   there is a credential exactly when the option and the AT bit ask for one.
   */
  lemma {:induction false} ParsedFieldsRebuildInput(d: seq<byte>, attested: bool, onCurve: Curve)
    requires Parse(d, attested, onCurve).Ok?
    ensures var p := Parse(d, attested, onCurve).value;
            && Fixed(p.rpIdHash, p.flags, p.signCount) <= d
            && (p.credential.Some? <==> attested && HasAT(p.flags))
            && (p.credential.Some? ==>
                  var c := p.credential.value;
                  var off := 55 + |c.credentialId|;
                  && |c.aaguid| == 16 && |c.rawPoint| == 65 && c.rawPoint[0] == 4 && off <= |d|
                  && d[..off] == Fixed(p.rpIdHash, p.flags, p.signCount) + c.aaguid + ToBigEndian(|c.credentialId|, 2) + c.credentialId
                  && exists end :: 0 <= end <= |d| - off && SpellsKey(d[off..][..end], c.rawPoint, onCurve))
  {
    var p := Parse(d, attested, onCurve).value;
    ToBigEndianReads(d[33..37]);
    assert Fixed(p.rpIdHash, p.flags, p.signCount) == d[..37];
    if p.credential.Some? {
      CredentialRebuilds(d, onCurve);
    }
  }

  lemma {:induction false} CredentialRebuilds(d: seq<byte>, onCurve: Curve)
    requires |d| >= 37 && ParseCredential(d, onCurve).Ok?
    ensures var c := ParseCredential(d, onCurve).value;
            var off := 55 + |c.credentialId|;
            && |c.aaguid| == 16 && |c.rawPoint| == 65 && c.rawPoint[0] == 4 && off <= |d|
            && d[..off] == d[..37] + c.aaguid + ToBigEndian(|c.credentialId|, 2) + c.credentialId
            && exists end :: 0 <= end <= |d| - off && SpellsKey(d[off..][..end], c.rawPoint, onCurve)
  {
    var c := ParseCredential(d, onCurve).value;
    var off := 55 + BigEndian(d[53..55]);
    ToBigEndianReads(d[53..55]);
    assert d[..off] == d[..37] + d[37..53] + d[53..55] + d[55..off];
    KeyParsesExactly(d[off..], c.rawPoint, onCurve);
  }
}
