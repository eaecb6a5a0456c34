/**
 The DER walk that finds one X.509 extension (token-issuer/appattest.js, `derReadTLV`,
 `findExtensionValue`, `parseAppleNonce`), against the DER writers of
 token-issuer/appattest-fixtures.js. Section 8.1.3 of X.690 gives the length forms.
 */
module Der {
  import opened Prelude
  import opened Bytes

  // ----- Reading one TLV -----

  /** A header: its tag, its length as a 32-bit signed number, and where its content starts. */
  datatype Tlv = Tlv(tag: byte, len: int, start: nat)

  datatype Error =
    | TruncatedTag | TruncatedLength | BadLongForm | TruncatedLong | Overruns
    | NotSequence | NotContext | NotOctets | NotThirtyTwo

  /** A 32-bit number read as signed, as JavaScript's shifts leave it. */
  function Int32(n: int): int {
    if n >= 0x8000_0000 then n - 0x1_0000_0000 else n
  }

  /** The `k` bytes from `p` as one big-endian number. */
  function NumberAt(buf: seq<byte>, p: nat, k: nat): nat
    requires p + k <= |buf|
  {
    if k == 0 then 0 else 256 * NumberAt(buf, p, k - 1) + buf[p + k - 1] as nat
  }

  /** The length octets at `p`: the length and where they end. */
  function ReadLen(buf: seq<byte>, p: nat): (r: Result<(int, nat), Error>)
    ensures r.Ok? ==> p + 1 <= r.value.1 <= |buf|
  {
    if p >= |buf| then Err(TruncatedLength)
    else if buf[p] < 0x80 then Ok((buf[p] as int, p + 1))
    else
      var k := buf[p] as nat - 0x80;
      if k == 0 || k > 4 then Err(BadLongForm)
      else if p + 1 + k > |buf| then Err(TruncatedLong)
      else Ok((Int32(NumberAt(buf, p + 1, k)), p + 1 + k))
  }

  function ReadTlv(buf: seq<byte>, off: nat): (r: Result<Tlv, Error>)
    ensures r.Ok? ==> off + 2 <= r.value.start <= |buf| && r.value.start + r.value.len <= |buf|
  {
    if off + 1 > |buf| then Err(TruncatedTag)
    else match ReadLen(buf, off + 1)
      case Err(e) => Err(e)
      case Ok((len, start)) => if start + len > |buf| then Err(Overruns) else Ok(Tlv(buf[off], len, start))
  }

  /**
   Section 8.1.3 of X.690 as the reader takes it: a length is read if and only if it is one byte below 0x80, or one
   to four bytes announced by their number, whose value as a signed 32-bit number is the length.
   */
  lemma LengthReadsExactly(buf: seq<byte>, p: nat, len: int, end: nat)
    ensures ReadLen(buf, p) == Ok((len, end)) <==>
            || (p < |buf| && buf[p] < 0x80 && len == buf[p] as int && end == p + 1)
            || (p + 1 < end <= |buf| && end <= p + 5 && buf[p] as int == 0x80 + (end - p - 1) && len == Int32(BigEndian(buf[p + 1..end])))
  {
    if p + 1 < end <= |buf| { NumberIsBigEndian(buf, p + 1, end - p - 1); }
  }

  lemma {:induction false} NumberIsBigEndian(buf: seq<byte>, p: nat, k: nat)
    requires p + k <= |buf|
    ensures NumberAt(buf, p, k) == BigEndian(buf[p..p + k])
  {
    if k > 0 {
      NumberIsBigEndian(buf, p, k - 1);
      assert buf[p..p + k][..k - 1] == buf[p..p + k - 1];
    }
  }

  /** `derReadTLV`, whose loop shifts a 32-bit number. */
  method DerReadTLV(buf: seq<byte>, off: nat) returns (r: Result<Tlv, Error>)
    ensures r == ReadTlv(buf, off)
  {
    if off + 1 > |buf| { return Err(TruncatedTag); }
    var tag := buf[off];
    var p := off + 1;
    if p >= |buf| { return Err(TruncatedLength); }
    var len: int := buf[p] as int;
    p := p + 1;
    if len >= 0x80 {
      var nBytes := len - 0x80;
      if nBytes == 0 || nBytes > 4 { return Err(BadLongForm); }
      if p + nBytes > |buf| { return Err(TruncatedLong); }
      len := 0;
      for i := 0 to nBytes
        invariant p == off + 2 + i
        invariant len == Int32(NumberAt(buf, off + 2, i))
      {
        NumberBound(buf, off + 2, i);
        len := Int32(len * 256) + buf[p] as int;
        p := p + 1;
      }
    }
    if p + len > |buf| { return Err(Overruns); }
    return Ok(Tlv(tag, len, p));
  }

  lemma {:induction false} NumberBound(buf: seq<byte>, p: nat, k: nat)
    requires p + k <= |buf| && k < 4
    ensures NumberAt(buf, p, k) < 0x100_0000
    ensures k < 3 ==> NumberAt(buf, p, k) < 0x1_0000
    ensures k < 2 ==> NumberAt(buf, p, k) < 0x100
  {
    if k > 0 { NumberBound(buf, p, k - 1); }
  }

  // ----- The byte-level walk -----

  /** `Backwards`: a negative length sends the offset back, and what the code does then is not modelled. */
  datatype Outcome = Found(value: seq<byte>) | Missing | Backwards

  const MAX_DEPTH := 24

  predicate Constructed(tag: byte) {
    tag as nat / 32 % 2 == 1
  }

  /** The siblings after the OID, up to `cEnd`: the first OCTET STRING. */
  function Siblings(buf: seq<byte>, sib: nat, cEnd: nat): Outcome
    decreases |buf| - sib
  {
    if sib >= cEnd then Missing
    else match ReadTlv(buf, sib)
      case Err(_) => Missing
      case Ok(s) =>
        if s.len < 0 then Backwards
        else if s.tag == 0x04 then Found(buf[s.start..s.start + s.len])
        else Siblings(buf, s.start + s.len, cEnd)
  }

  /** Does the content at `cStart` begin with the OID, and which value follows? */
  function ExtensionAt(buf: seq<byte>, oid: seq<byte>, cStart: nat, cEnd: nat): Outcome {
    match ReadTlv(buf, cStart)
    case Err(_) => Missing
    case Ok(inner) =>
      if inner.tag == 0x06 && inner.len == |oid| && buf[inner.start..inner.start + inner.len] == oid
      then Siblings(buf, inner.start + inner.len, cEnd)
      else Missing
  }

  /** `walk` from `off`: the first outcome that is not Missing. */
  function Walk(buf: seq<byte>, oid: seq<byte>, off: nat, end: nat, depth: nat): Outcome
    decreases if depth > MAX_DEPTH then 0 else MAX_DEPTH + 1 - depth, if off > |buf| then 0 else |buf| + 1 - off
  {
    if depth > MAX_DEPTH || off >= end then Missing
    else match ReadTlv(buf, off)
      case Err(_) => Missing
      case Ok(t) =>
        if t.len < 0 then Backwards
        else
          var cEnd := t.start + t.len;
          var here := if t.tag == 0x30 then ExtensionAt(buf, oid, t.start, cEnd) else Missing;
          var inside := if Constructed(t.tag) then Walk(buf, oid, t.start, cEnd, depth + 1) else Missing;
          Or(here, Or(inside, Walk(buf, oid, cEnd, end, depth)))
  }

  function Or(a: Outcome, b: Outcome): Outcome {
    if a.Missing? then b else a
  }

  /** The walk as it is written: loops, recursion, and a shared result. */
  class Finder {
    const oid: seq<byte>
    var found: Outcome

    constructor (oid: seq<byte>)
      ensures this.oid == oid && found == Missing
    {
      this.oid := oid;
      found := Missing;
    }

    /** The extension test on one SEQUENCE; every error inside it only ends the test. */
    method TestExtension(buf: seq<byte>, cStart: nat, cEnd: nat)
      requires found.Missing?
      modifies this
      ensures found == ExtensionAt(buf, oid, cStart, cEnd)
    {
      var inner := DerReadTLV(buf, cStart);
      if inner.Err? { return; }
      var i := inner.value;
      if i.tag == 0x06 && i.len == |oid| && buf[i.start..i.start + i.len] == oid {
        var sib := i.start + i.len;
        while sib < cEnd
          invariant found.Missing?
          invariant sib <= |buf|
          invariant Siblings(buf, i.start + i.len, cEnd) == Siblings(buf, sib, cEnd)
          decreases |buf| - sib
        {
          var r := DerReadTLV(buf, sib);
          if r.Err? { return; }
          var s := r.value;
          if s.len < 0 {
            found := Backwards;
            return;
          }
          if s.tag == 0x04 {
            found := Found(buf[s.start..s.start + s.len]);
            return;
          }
          sib := s.start + s.len;
        }
      }
    }

    /** `walk` computes Walk and keeps the first result. */
    method WalkFrom(buf: seq<byte>, start: nat, end: nat, depth: nat)
      modifies this
      ensures found == Or(old(found), Walk(buf, oid, start, end, depth))
      decreases if depth > MAX_DEPTH then 0 else MAX_DEPTH + 1 - depth
    {
      if depth > MAX_DEPTH || !found.Missing? { return; }
      var off := start;
      while off < end && found.Missing?
        invariant Walk(buf, oid, start, end, depth) == Or(found, Walk(buf, oid, off, end, depth))
        decreases if off > |buf| then 0 else |buf| + 1 - off
      {
        var r := DerReadTLV(buf, off);
        if r.Err? { return; }
        var t := r.value;
        if t.len < 0 {
          found := Backwards;
          return;
        }
        var cEnd := t.start + t.len;
        if t.tag == 0x30 {
          TestExtension(buf, t.start, cEnd);
          if !found.Missing? { return; }
        }
        if Constructed(t.tag) { WalkFrom(buf, t.start, cEnd, depth + 1); }
        off := cEnd;
      }
    }
  }

  /** `findExtensionValue` on a certificate. */
  method FindExtensionValue(certDer: seq<byte>, oid: seq<byte>) returns (r: Outcome)
    ensures r == Walk(certDer, oid, 0, |certDer|, 0)
  {
    var finder := new Finder(oid);
    finder.WalkFrom(certDer, 0, |certDer|, 0);
    return finder.found;
  }

  // ----- Trees -----

  datatype Node = Prim(tag: byte, body: seq<byte>) | Cons(tag: byte, children: seq<Node>)

  /** The bytes from `pos` to `end` are these nodes, in any length form that the reader accepts. */
  ghost predicate Spells(buf: seq<byte>, pos: nat, end: nat, nodes: seq<Node>)
    decreases nodes, 0
  {
    if nodes == [] then pos == end
    else match ReadTlv(buf, pos)
      case Err(_) => false
      case Ok(t) =>
        && t.tag == nodes[0].tag && t.len >= 0 && t.start + t.len <= end
        && SpellsBody(buf, t.start, t.start + t.len, nodes[0])
        && Spells(buf, t.start + t.len, end, nodes[1..])
  }

  /** The content of one node; the constructed bit tells the two kinds apart. */
  ghost predicate SpellsBody(buf: seq<byte>, start: nat, end: nat, n: Node)
    decreases n, 1
  {
    match n
    case Prim(tag, body) => !Constructed(tag) && start <= end <= |buf| && buf[start..end] == body
    case Cons(tag, children) => Constructed(tag) && Spells(buf, start, end, children)
  }

  // ----- The tree search -----

  /** The first OCTET STRING among the nodes. */
  function FirstOctets(nodes: seq<Node>): Outcome {
    if nodes == [] then Missing
    else if nodes[0].Prim? && nodes[0].tag == 0x04 then Found(nodes[0].body)
    else FirstOctets(nodes[1..])
  }

  /** The value of the extension that this node is, if it is one with this OID. */
  function ExtensionOf(n: Node, oid: seq<byte>): Outcome {
    if n.Cons? && n.tag == 0x30 && n.children != [] && n.children[0] == Prim(0x06, oid)
    then FirstOctets(n.children[1..])
    else Missing
  }

  /** The nodes no deeper than the limit, each before its children and those before its next sibling. */
  function PreOrder(nodes: seq<Node>, depth: nat): seq<Node>
    decreases nodes
  {
    if nodes == [] || depth > MAX_DEPTH then []
    else [nodes[0]] + (if nodes[0].Cons? then PreOrder(nodes[0].children, depth + 1) else []) + PreOrder(nodes[1..], depth)
  }

  /** The first value in a list of nodes. */
  function FirstExtension(nodes: seq<Node>, oid: seq<byte>): Outcome {
    if nodes == [] then Missing
    else Or(ExtensionOf(nodes[0], oid), FirstExtension(nodes[1..], oid))
  }

  /** The value at `i` is the first one exactly when every node before `i` is not such an extension. */
  lemma {:induction false} FirstExtensionIsFirst(nodes: seq<Node>, oid: seq<byte>, i: nat)
    requires i < |nodes| && !ExtensionOf(nodes[i], oid).Missing?
    requires forall j :: 0 <= j < i ==> ExtensionOf(nodes[j], oid).Missing?
    ensures FirstExtension(nodes, oid) == ExtensionOf(nodes[i], oid)
    decreases i
  {
    if i > 0 {
      assert forall j :: 0 <= j < i - 1 ==> nodes[1..][j] == nodes[j + 1];
      FirstExtensionIsFirst(nodes[1..], oid, i - 1);
    }
  }

  lemma {:induction false} NoExtension(nodes: seq<Node>, oid: seq<byte>)
    ensures FirstExtension(nodes, oid).Missing? <==> forall j :: 0 <= j < |nodes| ==> ExtensionOf(nodes[j], oid).Missing?
  {
    if nodes != [] {
      NoExtension(nodes[1..], oid);
      assert forall j :: 0 < j < |nodes| ==> nodes[j] == nodes[1..][j - 1];
      assert forall j :: 0 <= j < |nodes[1..]| ==> nodes[1..][j] == nodes[j + 1];
    }
  }

  lemma {:induction false} FirstExtensionConcat(a: seq<Node>, b: seq<Node>, oid: seq<byte>)
    ensures FirstExtension(a + b, oid) == Or(FirstExtension(a, oid), FirstExtension(b, oid))
  {
    if a == [] {
      assert a + b == b;
    } else {
      assert (a + b)[1..] == a[1..] + b;
      FirstExtensionConcat(a[1..], b, oid);
    }
  }

  // ----- The walk refines the tree search -----

  /** The sibling scan finds the first OCTET STRING of the nodes it stands before. */
  lemma {:induction false} SiblingsRefine(buf: seq<byte>, pos: nat, end: nat, nodes: seq<Node>)
    requires Spells(buf, pos, end, nodes)
    ensures Siblings(buf, pos, end) == FirstOctets(nodes)
    decreases nodes
  {
    if nodes != [] {
      var t := ReadTlv(buf, pos).value;
      SiblingsRefine(buf, t.start + t.len, end, nodes[1..]);
    }
  }

  /** The byte-level test of a SEQUENCE is the test of its node. */
  lemma {:induction false} ExtensionRefines(buf: seq<byte>, oid: seq<byte>, pos: nat, end: nat, children: seq<Node>)
    requires Spells(buf, pos, end, children)
    ensures ExtensionAt(buf, oid, pos, end) == ExtensionOf(Cons(0x30, children), oid)
  {
    if children != [] {
      var t := ReadTlv(buf, pos).value;
      SiblingsRefine(buf, t.start + t.len, end, children[1..]);
    }
  }

  /** One turn of the walk. */
  lemma {:induction false} WalkTurn(buf: seq<byte>, oid: seq<byte>, pos: nat, end: nat, depth: nat, n: Node, inside: Outcome, after: Outcome)
    requires depth <= MAX_DEPTH && pos < end && ReadTlv(buf, pos).Ok?
    requires var t := ReadTlv(buf, pos).value;
             && t.tag == n.tag && t.len >= 0 && SpellsBody(buf, t.start, t.start + t.len, n)
             && inside == (if n.Cons? then Walk(buf, oid, t.start, t.start + t.len, depth + 1) else Missing)
             && after == Walk(buf, oid, t.start + t.len, end, depth)
    ensures Walk(buf, oid, pos, end, depth) == Or(ExtensionOf(n, oid), Or(inside, after))
  {
    var t := ReadTlv(buf, pos).value;
    if n.Cons? { ExtensionRefines(buf, oid, t.start, t.start + t.len, n.children); }
  }

  /** The walk over the bytes of some nodes gives the first extension of their pre-order. */
  lemma {:induction false} WalkRefines(buf: seq<byte>, oid: seq<byte>, pos: nat, end: nat, nodes: seq<Node>, depth: nat)
    requires Spells(buf, pos, end, nodes)
    ensures Walk(buf, oid, pos, end, depth) == FirstExtension(PreOrder(nodes, depth), oid)
    decreases nodes
  {
    if nodes != [] && depth <= MAX_DEPTH {
      var n, rest, t := nodes[0], nodes[1..], ReadTlv(buf, pos).value;
      var next := t.start + t.len;
      var inside := if n.Cons? then PreOrder(n.children, depth + 1) else [];
      var after := PreOrder(rest, depth);
      WalkRefines(buf, oid, next, end, rest, depth);
      if n.Cons? { WalkRefines(buf, oid, t.start, next, n.children, depth + 1); }
      WalkTurn(buf, oid, pos, end, depth, n, FirstExtension(inside, oid), FirstExtension(after, oid));
      PreOrderStep(n, inside, after, oid);
    }
  }

  lemma {:induction false} PreOrderStep(n: Node, inside: seq<Node>, after: seq<Node>, oid: seq<byte>)
    ensures FirstExtension([n] + inside + after, oid) == Or(ExtensionOf(n, oid), Or(FirstExtension(inside, oid), FirstExtension(after, oid)))
  {
    FirstExtensionConcat([n] + inside, after, oid);
    FirstExtensionConcat([n], inside, oid);
    assert [n][1..] == [];
  }

  // ----- The limit -----

  /** How many levels of nodes there are. */
  function Levels(nodes: seq<Node>): nat
    decreases nodes
  {
    if nodes == [] then 0
    else
      var here := if nodes[0].Cons? then 1 + Levels(nodes[0].children) else 1;
      Max(here, Levels(nodes[1..]))
  }

  /** Every node, without a limit. */
  function AllNodes(nodes: seq<Node>): seq<Node>
    decreases nodes
  {
    if nodes == [] then []
    else [nodes[0]] + (if nodes[0].Cons? then AllNodes(nodes[0].children) else []) + AllNodes(nodes[1..])
  }

  /** The limit hides a node exactly when there are more levels than it allows. */
  lemma {:induction false} LimitHidesNothing(nodes: seq<Node>, depth: nat)
    requires depth <= MAX_DEPTH + 1
    ensures |PreOrder(nodes, depth)| <= |AllNodes(nodes)|
    ensures PreOrder(nodes, depth) == AllNodes(nodes) <==> Levels(nodes) + depth <= MAX_DEPTH + 1
    decreases nodes
  {
    if nodes != [] && depth <= MAX_DEPTH {
      var n, rest := nodes[0], nodes[1..];
      LimitHidesNothing(rest, depth);
      var inside, all := if n.Cons? then PreOrder(n.children, depth + 1) else [], if n.Cons? then AllNodes(n.children) else [];
      if n.Cons? { LimitHidesNothing(n.children, depth + 1); }
      SplitEqual(n, inside, all, PreOrder(rest, depth), AllNodes(rest));
    }
  }

  lemma {:induction false} SplitEqual(n: Node, a: seq<Node>, b: seq<Node>, c: seq<Node>, d: seq<Node>)
    requires |a| <= |b| && |c| <= |d|
    ensures [n] + a + c == [n] + b + d <==> a == b && c == d
  {
    if [n] + a + c == [n] + b + d {
      assert |a| == |b|;
      assert a == ([n] + a + c)[1..1 + |a|] && b == ([n] + b + d)[1..1 + |a|];
      assert c == ([n] + a + c)[1 + |a|..] && d == ([n] + b + d)[1 + |a|..];
    }
  }

  // ----- The writers -----

  /** The big-endian bytes of `n` without leading zeros. */
  function MinBytes(n: nat): seq<byte> {
    if n == 0 then [] else MinBytes(n / 256) + [(n % 256) as byte]
  }

  /** The length octets. */
  function LenBytes(n: nat): (s: seq<byte>)
    ensures s != []
  {
    if n < 0x80 then [n as byte]
    else var b := MinBytes(n); [if |b| < 0x80 then (0x80 + |b|) as byte else 0xff] + b
  }

  /** `derLen`, whose loop prepends bytes. */
  method DerLen(n: nat) returns (s: seq<byte>)
    requires n < 0x8000_0000
    ensures s == LenBytes(n)
  {
    if n < 0x80 { return [n as byte]; }
    var bytes: seq<byte>, v := [], n;
    while v > 0
      invariant MinBytes(n) == MinBytes(v) + bytes
    {
      assert MinBytes(v) + bytes == MinBytes(v / 256) + ([(v % 256) as byte] + bytes);
      bytes := [(v % 256) as byte] + bytes;
      v := v / 256;
    }
    assert MinBytes(0) + bytes == bytes;
    Widths();
    MinBytesLength(n, 4);
    return [(0x80 + |bytes|) as byte] + bytes;
  }

  /** `tlv`. */
  function WriteTlv(tag: byte, content: seq<byte>): seq<byte> {
    Header(tag, |content|) + content
  }

  function Header(tag: byte, n: nat): seq<byte> {
    [tag] + LenBytes(n)
  }

  /** A way to write headers from a tag and a length. */
  type Headers = (byte, nat) -> seq<byte>

  function Content(n: Node, hdr: Headers): seq<byte>
    decreases n, 1
  {
    match n
    case Prim(_, body) => body
    case Cons(_, children) => WriteAll(children, hdr)
  }

  function Write(n: Node, hdr: Headers): seq<byte>
    decreases n, 2
  {
    hdr(n.tag, |Content(n, hdr)|) + Content(n, hdr)
  }

  /** The nodes one after the other, each a header and its content. */
  function WriteAll(nodes: seq<Node>, hdr: Headers): seq<byte>
    decreases nodes, 0
  {
    if nodes == [] then [] else Write(nodes[0], hdr) + WriteAll(nodes[1..], hdr)
  }

  /** The constructed bit is right and every length is below 2^31. */
  ghost predicate WellFormed(n: Node, hdr: Headers)
    decreases n, 1
  {
    && |Content(n, hdr)| < 0x8000_0000
    && (n.Cons? <==> Constructed(n.tag))
    && (n.Cons? ==> AllWellFormed(n.children, hdr))
  }

  ghost predicate AllWellFormed(nodes: seq<Node>, hdr: Headers)
    decreases nodes, 0
  {
    nodes == [] || (WellFormed(nodes[0], hdr) && AllWellFormed(nodes[1..], hdr))
  }

  lemma {:induction false} MinBytesLength(n: nat, k: nat)
    requires n < Pow256(k)
    ensures |MinBytes(n)| <= k && (n > 0 ==> MinBytes(n) != [])
  {
    if n > 0 { MinBytesLength(n / 256, k - 1); }
  }

  lemma {:induction false} MinBytesRead(buf: seq<byte>, p: nat, n: nat)
    requires At(buf, p, MinBytes(n))
    ensures NumberAt(buf, p, |MinBytes(n)|) == n
  {
    if n > 0 {
      AtSplit(buf, p, MinBytes(n / 256), [(n % 256) as byte]);
      assert [(n % 256) as byte][0] == buf[p + |MinBytes(n / 256)|];
      MinBytesRead(buf, p, n / 256);
    }
  }

  lemma {:induction false} LenReads(buf: seq<byte>, p: nat, n: nat)
    requires n < 0x8000_0000 && At(buf, p, LenBytes(n))
    ensures ReadLen(buf, p) == Ok((n, p + |LenBytes(n)|))
  {
    assert LenBytes(n)[0] == buf[p];
    if n >= 0x80 {
      Widths();
      MinBytesLength(n, 4);
      AtSplit(buf, p, [(0x80 + |MinBytes(n)|) as byte], MinBytes(n));
      MinBytesRead(buf, p + 1, n);
    }
  }

  /** Wherever `head` stands with `n` bytes after it, it is read as the header of a TLV. */
  ghost predicate Heads(buf: seq<byte>, head: seq<byte>, tag: byte, n: nat) {
    forall p: nat {:trigger At(buf, p, head)} ::
      At(buf, p, head) && p + |head| + n <= |buf| ==> ReadTlv(buf, p) == Ok(Tlv(tag, n, p + |head|))
  }

  lemma {:induction false} HeaderHeads(buf: seq<byte>, tag: byte, n: nat)
    requires n < 0x8000_0000
    ensures Heads(buf, Header(tag, n), tag, n)
  {
    var l := LenBytes(n);
    forall p: nat | At(buf, p, [tag] + l) && p + 1 + |l| + n <= |buf|
      ensures ReadTlv(buf, p) == Ok(Tlv(tag, n, p + 1 + |l|))
    {
      AtSplit(buf, p, [tag], l);
      LenReads(buf, p + 1, n);
      TagReads(buf, p, tag, n, p + 1 + |l|);
    }
  }

  lemma {:induction false} TagReads(buf: seq<byte>, p: nat, tag: byte, n: nat, start: nat)
    requires At(buf, p, [tag]) && ReadLen(buf, p + 1) == Ok((n, start)) && start + n <= |buf|
    ensures ReadTlv(buf, p) == Ok(Tlv(tag, n, start))
  {
    assert [tag][0] == buf[p];
  }

  /** What is written is read back, wherever it stands. */
  lemma {:induction false} TlvReads(buf: seq<byte>, pos: nat, tag: byte, head: seq<byte>, content: seq<byte>)
    requires Heads(buf, head, tag, |content|) && At(buf, pos, head + content)
    ensures ReadTlv(buf, pos) == Ok(Tlv(tag, |content|, pos + |head|)) && At(buf, pos + |head|, content)
  {
    AtSplit(buf, pos, head, content);
  }

  /** Headers that the reader understands. */
  ghost predicate Readable(buf: seq<byte>, hdr: Headers) {
    forall tag: byte, n: nat {:trigger hdr(tag, n)} :: n < 0x8000_0000 ==> Heads(buf, hdr(tag, n), tag, n)
  }

  /** Writing nodes with readable headers spells them. */
  lemma {:induction false} WritingSpells(buf: seq<byte>, pos: nat, end: nat, nodes: seq<Node>, hdr: Headers)
    requires Readable(buf, hdr) && AllWellFormed(nodes, hdr)
    requires At(buf, pos, WriteAll(nodes, hdr)) && end == pos + |WriteAll(nodes, hdr)|
    ensures Spells(buf, pos, end, nodes)
    decreases nodes, 0
  {
    if nodes != [] {
      var n, w, c := nodes[0], Write(nodes[0], hdr), Content(nodes[0], hdr);
      AtSplit(buf, pos, w, WriteAll(nodes[1..], hdr));
      TlvReads(buf, pos, n.tag, hdr(n.tag, |c|), c);
      BodySpells(buf, pos + |w| - |c|, pos + |w|, n, hdr);
      WritingSpells(buf, pos + |w|, end, nodes[1..], hdr);
    }
  }

  lemma {:induction false} BodySpells(buf: seq<byte>, start: nat, end: nat, n: Node, hdr: Headers)
    requires Readable(buf, hdr) && WellFormed(n, hdr) && At(buf, start, Content(n, hdr)) && end == start + |Content(n, hdr)|
    ensures SpellsBody(buf, start, end, n)
    decreases n, 1
  {
    match n
    case Prim(_, body) => AtSlice(buf, start, body);
    case Cons(_, children) => WritingSpells(buf, start, end, children, hdr);
  }

  /**
   On the bytes of any well-formed nodes, `findExtensionValue` returns what a pre-order search of the
   tree returns: the value of the first extension with the OID that lies no deeper than the limit.
   */
  lemma {:induction false} FindsFirstExtension(nodes: seq<Node>, oid: seq<byte>)
    requires AllWellFormed(nodes, Header)
    ensures var buf := WriteAll(nodes, Header);
            Walk(buf, oid, 0, |buf|, 0) == FirstExtension(PreOrder(nodes, 0), oid)
  {
    var buf := WriteAll(nodes, Header);
    assert Readable(buf, Header) by {
      forall tag: byte, n: nat | n < 0x8000_0000 ensures Heads(buf, Header(tag, n), tag, n) {
        HeaderHeads(buf, tag, n);
      }
    }
    WritingSpells(buf, 0, |buf|, nodes, Header);
    WalkRefines(buf, oid, 0, |buf|, nodes, 0);
  }

  /** With at most 25 levels nothing is hidden, and the search is over the whole tree. */
  lemma {:induction false} FindsFirstOfAll(nodes: seq<Node>, oid: seq<byte>)
    requires AllWellFormed(nodes, Header) && Levels(nodes) <= MAX_DEPTH + 1
    ensures var buf := WriteAll(nodes, Header);
            Walk(buf, oid, 0, |buf|, 0) == FirstExtension(AllNodes(nodes), oid)
  {
    FindsFirstExtension(nodes, oid);
    LimitHidesNothing(nodes, 0);
  }

  // ----- The nonce -----

  /** `parseAppleNonce`. */
  function ParseNonce(d: seq<byte>): (r: Result<seq<byte>, Error>)
    ensures r.Ok? ==> |r.value| == 32
  {
    match ReadTlv(d, 0)
    case Err(e) => Err(e)
    case Ok(sq) =>
      if sq.tag != 0x30 then Err(NotSequence)
      else match ReadTlv(d, sq.start)
        case Err(e) => Err(e)
        case Ok(ctx) =>
          if ctx.tag != 0xa1 then Err(NotContext)
          else match ReadTlv(d, ctx.start)
            case Err(e) => Err(e)
            case Ok(oct) =>
              if oct.tag != 0x04 then Err(NotOctets)
              else if oct.len != 32 then Err(NotThirtyTwo)
              else Ok(d[oct.start..oct.start + 32])
  }

  /** The value of the nonce extension: SEQUENCE { [1] { OCTET STRING nonce } }. */
  function NonceValue(nonce: seq<byte>): seq<byte> {
    WriteTlv(0x30, WriteTlv(0xa1, WriteTlv(0x04, nonce)))
  }

  /** `appleNonceExtension`. */
  function NonceExtension(oid: seq<byte>, nonce: seq<byte>): Node {
    Cons(0x30, [Prim(0x06, oid), Prim(0x04, NonceValue(nonce))])
  }

  lemma {:induction false} LenBytesShort(n: nat)
    requires n < 0x8000_0000
    ensures |LenBytes(n)| <= 5
  {
    if n >= 0x80 {
      Widths();
      MinBytesLength(n, 4);
    }
  }

  /** The parser reads back exactly the nonces of 32 bytes, whatever follows. */
  lemma {:induction false} NonceRoundTrip(nonce: seq<byte>, suffix: seq<byte>)
    requires |nonce| < 0x7fff_0000
    ensures ParseNonce(NonceValue(nonce) + suffix) == if |nonce| == 32 then Ok(nonce) else Err(NotThirtyTwo)
  {
    var oct := WriteTlv(0x04, nonce);
    var ctx := WriteTlv(0xa1, oct);
    var d := NonceValue(nonce) + suffix;
    LenBytesShort(|nonce|);
    LenBytesShort(|oct|);
    HeaderHeads(d, 0x30, |ctx|);
    HeaderHeads(d, 0xa1, |oct|);
    HeaderHeads(d, 0x04, |nonce|);
    NonceReads(d, Header(0x30, |ctx|), Header(0xa1, |oct|), Header(0x04, |nonce|), nonce);
  }

  lemma {:induction false} NonceReads(d: seq<byte>, h1: seq<byte>, h2: seq<byte>, h3: seq<byte>, nonce: seq<byte>)
    requires At(d, 0, h1 + (h2 + (h3 + nonce)))
    requires Heads(d, h1, 0x30, |h2 + (h3 + nonce)|) && Heads(d, h2, 0xa1, |h3 + nonce|) && Heads(d, h3, 0x04, |nonce|)
    ensures ParseNonce(d) == if |nonce| == 32 then Ok(nonce) else Err(NotThirtyTwo)
  {
    TlvReads(d, 0, 0x30, h1, h2 + (h3 + nonce));
    TlvReads(d, |h1|, 0xa1, h2, h3 + nonce);
    TlvReads(d, |h1| + |h2|, 0x04, h3, nonce);
    AtSlice(d, |h1| + |h2| + |h3|, nonce);
  }

  /**
   End to end: in a certificate whose first extension with the OID is the nonce extension of a
   32-byte nonce, finding the value and parsing it gives that nonce.
   */
  lemma {:induction false} NonceIsExtracted(cert: seq<Node>, oid: seq<byte>, nonce: seq<byte>, i: nat)
    requires AllWellFormed(cert, Header) && |nonce| == 32
    requires i < |PreOrder(cert, 0)| && PreOrder(cert, 0)[i] == NonceExtension(oid, nonce)
    requires forall j :: 0 <= j < i ==> ExtensionOf(PreOrder(cert, 0)[j], oid).Missing?
    ensures var buf := WriteAll(cert, Header);
            var r := Walk(buf, oid, 0, |buf|, 0);
            r.Found? && ParseNonce(r.value) == Ok(nonce)
  {
    var list, ext := PreOrder(cert, 0), NonceExtension(oid, nonce);
    FindsFirstExtension(cert, oid);
    assert ext.children[1..] == [Prim(0x04, NonceValue(nonce))];
    assert ExtensionOf(list[i], oid) == Found(NonceValue(nonce));
    FirstExtensionIsFirst(list, oid, i);
    NonceRoundTrip(nonce, []);
    assert NonceValue(nonce) + [] == NonceValue(nonce);
  }
}
