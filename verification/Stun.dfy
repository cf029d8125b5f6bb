/** STUN Binding responses (RFC 5389 sections 6, 15, 15.1 and 15.2) as the client parses them.
    The parser loop is proved against a list-of-attributes reading of the bytes, and that
    reading is proved inverse to serialisation. */
module Stun {
  import opened Basics

  type Byte = x: int | 0 <= x < 256
  type U16 = x: int | 0 <= x < 65536
  type TxnId = s: seq<Byte> | |s| == 12 witness seq(12, _ => 0)

  datatype SocketAddr = V4(octets: seq<Byte>, port: U16) | V6(octets: seq<Byte>, port: U16)

  /** `Malformed` carries which check failed instead of a message. */
  datatype Flaw = TooShort | BadCookie | BadType | LengthExceedsBuffer
  datatype StunError = Malformed(flaw: Flaw) | TxnMismatch | ErrorResponse(code: U16) | NoMappedAddress

  datatype Outcome = Ok(addr: SocketAddr) | Err(error: StunError)

  const BINDING_RESPONSE: U16 := 0x0101
  const BINDING_ERROR: U16 := 0x0111
  const ATTR_MAPPED: U16 := 0x0001
  const ATTR_XOR_MAPPED: U16 := 0x0020
  const HEADER_LEN: nat := 20
  const COOKIE: seq<Byte> := [0x21, 0x12, 0xA4, 0x42]
  const COOKIE_HIGH: U16 := 0x2112

  // ---------------------------------------------------------------- bytes and bits

  function BE16(hi: Byte, lo: Byte): U16 { hi * 256 + lo }
  function High(x: U16): Byte { x / 256 }
  function Low(x: U16): Byte { x % 256 }

  function Pow2(n: nat): (p: nat)
    ensures p > 0
  {
    if n == 0 then 1 else 2 * Pow2(n - 1)
  }

  /** Bitwise exclusive or of two n-bit numbers. */
  function Xor(a: nat, b: nat, n: nat): (x: nat)
    ensures x < Pow2(n)
    decreases n
  {
    if n == 0 then 0 else (if a % 2 != b % 2 then 1 else 0) + 2 * Xor(a / 2, b / 2, n - 1)
  }

  /** Bit k of a number, lowest first. */
  function Bit(a: nat, k: nat): nat {
    if k == 0 then a % 2 else Bit(a / 2, k - 1)
  }

  /** Every bit of the result is the exclusive or of the operands' bits. */
  lemma {:induction false} XorBits(a: nat, b: nat, n: nat, k: nat)
    requires k < n
    ensures Bit(Xor(a, b, n), k) == if Bit(a, k) != Bit(b, k) then 1 else 0
    decreases k
  {
    var x := Xor(a, b, n);
    assert x / 2 == Xor(a / 2, b / 2, n - 1);
    assert x % 2 == if a % 2 != b % 2 then 1 else 0;
    if k == 0 {
    } else {
      XorBits(a / 2, b / 2, n - 1, k - 1);
    }
  }

  lemma {:induction false} XorInvolution(a: nat, b: nat, n: nat)
    requires a < Pow2(n)
    ensures Xor(Xor(a, b, n), b, n) == a
    decreases n
  {
    if n == 0 {
    } else {
      XorInvolution(a / 2, b / 2, n - 1);
      var x := Xor(a, b, n);
      assert x / 2 == Xor(a / 2, b / 2, n - 1);
      assert x % 2 == if a % 2 != b % 2 then 1 else 0;
    }
  }

  /** Whether the bits worth m differ. */
  function Differs(a: nat, b: nat, m: nat): (d: nat)
    requires m > 0
    ensures d <= 1
  {
    if (a / m) % 2 != (b / m) % 2 then 1 else 0
  }

  function Nibble(a: nat, b: nat): (x: nat)
    ensures x < 16
  {
    Differs(a, b, 1) + 2 * Differs(a, b, 2) + 4 * Differs(a, b, 4) + 8 * Differs(a, b, 8)
  }

  /** `^` on u8, written out bit by bit. */
  function Xor8(a: Byte, b: Byte): Byte { Nibble(a, b) + 16 * Nibble(a / 16, b / 16) }

  /** `^` on u16: octet by octet. */
  function Xor16(a: U16, b: U16): U16 { 256 * Xor8(High(a), High(b)) + Xor8(Low(a), Low(b)) }

  lemma TwoBits(a: nat, b: nat, n: nat)
    ensures Xor(a, b, n + 2) == Differs(a, b, 1) + 2 * Differs(a, b, 2) + 4 * Xor(a / 4, b / 4, n)
  {
    assert a / 2 / 2 == a / 4 && b / 2 / 2 == b / 4;
    assert Xor(a, b, n + 2) == Differs(a, b, 1) + 2 * Xor(a / 2, b / 2, n + 1);
  }

  lemma FourBits(a: nat, b: nat, n: nat)
    ensures Xor(a, b, n + 4) == Nibble(a, b) + 16 * Xor(a / 16, b / 16, n)
  {
    TwoBits(a, b, n + 2);
    TwoBits(a / 4, b / 4, n);
    assert a / 4 / 4 == a / 16 && b / 4 / 4 == b / 16;
    assert a / 4 / 2 == a / 8 && b / 4 / 2 == b / 8;
  }

  /** The octet form is the general one at width 8. */
  lemma Xor8IsXor(a: Byte, b: Byte, zero: nat)
    requires zero == 0
    ensures Xor(a, b, zero + 8) == Xor8(a, b)
  {
    FourBits(a, b, zero + 4);
    FourBits(a / 16, b / 16, zero);
    NoBits(a / 16 / 16, b / 16 / 16, zero);
  }

  lemma NoBits(a: nat, b: nat, n: nat)
    requires n == 0
    ensures Xor(a, b, n) == 0 && Pow2(n) == 1
  {}

  lemma PowStep(n: nat)
    ensures Pow2(n + 8) == 256 * Pow2(n)
  {
    assert Pow2(n + 2) == 4 * Pow2(n);
    assert Pow2(n + 4) == 4 * Pow2(n + 2);
    assert Pow2(n + 6) == 4 * Pow2(n + 4);
    assert Pow2(n + 8) == 4 * Pow2(n + 6);
  }

  /** Each bit of a masked octet is the exclusive or of the two bits. */
  lemma Xor8Bits(a: Byte, b: Byte, k: nat)
    requires k < 8
    ensures Bit(Xor8(a, b), k) == if Bit(a, k) != Bit(b, k) then 1 else 0
  {
    var zero := 0;
    Xor8IsXor(a, b, zero);
    XorBits(a, b, zero + 8, k);
  }

  lemma Xor8Involution(a: Byte, b: Byte, zero: nat)
    requires zero == 0
    ensures Xor8(Xor8(a, b), b) == a
  {
    Xor8IsXor(a, b, zero);
    Xor8IsXor(Xor8(a, b), b, zero);
    PowStep(zero);
    NoBits(0, 0, zero);
    XorInvolution(a, b, zero + 8);
  }

  function XorBytes(v: seq<Byte>, key: seq<Byte>): (r: seq<Byte>)
    requires |v| <= |key|
    ensures |r| == |v|
  {
    seq(|v|, i requires 0 <= i < |v| => Xor8(v[i], key[i]))
  }

  lemma XorBytesInvolution(v: seq<Byte>, key: seq<Byte>)
    requires |v| <= |key|
    ensures XorBytes(XorBytes(v, key), key) == v
  {
    forall i | 0 <= i < |v| ensures XorBytes(XorBytes(v, key), key)[i] == v[i] {
      Xor8Involution(v[i], key[i], 0);
    }
  }

  lemma Xor16Involution(p: U16)
    ensures Xor16(Xor16(p, COOKIE_HIGH), COOKIE_HIGH) == p
  {
    var hi, lo := High(p), Low(p);
    var x, y := Xor8(hi, High(COOKIE_HIGH)), Xor8(lo, Low(COOKIE_HIGH));
    Xor8Involution(hi, High(COOKIE_HIGH), 0);
    Xor8Involution(lo, Low(COOKIE_HIGH), 0);
    SplitBE16(x, y);
    assert Xor16(p, COOKIE_HIGH) == BE16(x, y);
  }

  // ---------------------------------------------------------------- addresses

  predicate ValidAddr(a: SocketAddr) {
    |a.octets| == if a.V4? then 4 else 16
  }

  /** `parse_mapped_address`. */
  function DecodeMapped(value: seq<Byte>): (r: Option<SocketAddr>)
    ensures r.Some? ==> ValidAddr(r.value)
  {
    if |value| < 4 then None
    else
      var port := BE16(value[2], value[3]);
      if value[1] == 1 then
        if |value| < 8 then None else Some(V4(value[4..8], port))
      else if value[1] == 2 then
        if |value| < 20 then None else Some(V6(value[4..20], port))
      else None
  }

  /** `parse_xor_mapped_address`: the same layout under the cookie and transaction id. */
  function DecodeXor(value: seq<Byte>, txn: TxnId): (r: Option<SocketAddr>)
    ensures r.Some? ==> ValidAddr(r.value)
  {
    if |value| < 4 then None
    else
      var port := Xor16(BE16(value[2], value[3]), COOKIE_HIGH);
      if value[1] == 1 then
        if |value| < 8 then None else Some(V4(XorBytes(value[4..8], COOKIE), port))
      else if value[1] == 2 then
        if |value| < 20 then None else Some(V6(XorBytes(value[4..20], COOKIE + txn), port))
      else None
  }

  /** The value of a MAPPED-ADDRESS attribute (RFC 5389 section 15.1). */
  function EncodeMapped(a: SocketAddr): seq<Byte> {
    [0, if a.V4? then 1 else 2, High(a.port), Low(a.port)] + a.octets
  }

  /** The value of an XOR-MAPPED-ADDRESS attribute (RFC 5389 section 15.2). */
  function EncodeXor(a: SocketAddr, txn: TxnId): seq<Byte>
    requires ValidAddr(a)
  {
    EncodeMapped(Masked(a, txn))
  }

  function Masked(a: SocketAddr, txn: TxnId): (m: SocketAddr)
    requires ValidAddr(a)
    ensures ValidAddr(m)
  {
    var port := Xor16(a.port, COOKIE_HIGH);
    if a.V4? then V4(XorBytes(a.octets, COOKIE), port)
    else V6(XorBytes(a.octets, COOKIE + txn), port)
  }

  lemma MaskedInvolution(a: SocketAddr, txn: TxnId)
    requires ValidAddr(a)
    ensures Masked(Masked(a, txn), txn) == a
  {
    Xor16Involution(a.port);
    XorBytesInvolution(a.octets, if a.V4? then COOKIE else COOKIE + txn);
  }

  /** The masked reading is the plain reading, unmasked: masking is the only difference. */
  lemma DecodeXorIsUnmaskedMapped(value: seq<Byte>, txn: TxnId)
    ensures DecodeXor(value, txn) ==
            match DecodeMapped(value) case None => None case Some(a) => Some(Masked(a, txn))
  {}

  /** How an XOR-MAPPED-ADDRESS decodes, octet by octet: the port under the high half of the cookie, an
      IPv4 address under the cookie, an IPv6 address under the cookie followed by the transaction id. */
  lemma MaskLayout(value: seq<Byte>, txn: TxnId, i: nat)
    requires DecodeXor(value, txn).Some? && i < |DecodeXor(value, txn).value.octets|
    ensures var a := DecodeXor(value, txn).value;
            && a.V4? == (value[1] == 1) && |a.octets| == (if a.V4? then 4 else 16)
            && High(a.port) == Xor8(value[2], 0x21) && Low(a.port) == Xor8(value[3], 0x12)
            && a.octets[i] == Xor8(value[4 + i], if i < 4 then [0x21, 0x12, 0xA4, 0x42][i] else txn[i - 4])
  {
    SplitBE16(value[2], value[3]);
    SplitBE16(Xor8(value[2], 0x21), Xor8(value[3], 0x12));
  }

  lemma MappedRoundTrip(a: SocketAddr, trailer: seq<Byte>)
    requires ValidAddr(a)
    ensures DecodeMapped(EncodeMapped(a) + trailer) == Some(a)
  {
    var v := EncodeMapped(a) + trailer;
    if a.V4? {
      assert v[4..8] == a.octets;
    } else {
      assert v[4..20] == a.octets;
    }
  }

  /** Encode then decode, whatever follows the address in the attribute. */
  lemma XorRoundTrip(a: SocketAddr, txn: TxnId, trailer: seq<Byte>)
    requires ValidAddr(a)
    ensures DecodeXor(EncodeXor(a, txn) + trailer, txn) == Some(a)
  {
    MappedRoundTrip(Masked(a, txn), trailer);
    DecodeXorIsUnmaskedMapped(EncodeXor(a, txn) + trailer, txn);
    MaskedInvolution(a, txn);
  }

  /** Decode then encode: a value that decodes to an address is that address's encoding, up to
      the unused first byte and trailing bytes. */
  lemma MappedDecodeDetermines(value: seq<Byte>)
    requires DecodeMapped(value).Some?
    ensures var e := EncodeMapped(DecodeMapped(value).value);
            |e| <= |value| && e[1..] == value[1..|e|]
  {
    var m := DecodeMapped(value).value;
    var e := EncodeMapped(m);
    assert m.octets == value[4..|e|];
    assert e[1..] == [value[1], value[2], value[3]] + m.octets == value[1..|e|];
  }

  /** The same for the masked form, so decoding loses nothing else. */
  lemma XorDecodeDetermines(value: seq<Byte>, txn: TxnId)
    requires DecodeXor(value, txn).Some?
    ensures var e := EncodeXor(DecodeXor(value, txn).value, txn);
            |e| <= |value| && e[1..] == value[1..|e|]
  {
    DecodeXorIsUnmaskedMapped(value, txn);
    MaskedInvolution(DecodeMapped(value).value, txn);
    MappedDecodeDetermines(value);
  }

  // ---------------------------------------------------------------- attributes

  function PadLen(n: nat): (p: nat)
    ensures p < 4 && (n + p) % 4 == 0
  {
    (4 - n % 4) % 4
  }

  /** Where the attribute after the one at pos starts. */
  function NextPos(pos: nat, value: seq<Byte>): nat {
    pos + 4 + |value| + PadLen(|value|)
  }

  /** One attribute with the padding bytes that follow it, which may be anything. */
  datatype Attr = Attr(kind: U16, value: seq<Byte>, pad: seq<Byte>)

  predicate WellFormed(a: Attr) {
    |a.value| < 65536 && |a.pad| == PadLen(|a.value|)
  }

  function AttrBytes(a: Attr): (b: seq<Byte>)
    requires WellFormed(a)
    ensures |b| == 4 + |a.value| + |a.pad|
  {
    AttrHead(a.kind, |a.value|) + a.value + a.pad
  }

  predicate AllWellFormed(attrs: seq<Attr>) {
    attrs == [] || (WellFormed(attrs[0]) && AllWellFormed(attrs[1..]))
  }

  function AllBytes(attrs: seq<Attr>): seq<Byte>
    requires AllWellFormed(attrs)
  {
    if attrs == [] then [] else AttrBytes(attrs[0]) + AllBytes(attrs[1..])
  }

  /** The attribute starting at pos, if one is complete there. Its padding may be cut off by the
      end of the message. */
  function AttrAt(bytes: seq<Byte>, pos: nat): (r: Option<(U16, seq<Byte>)>)
  {
    if pos + 4 > |bytes| then None
    else
      var end := pos + 4 + BE16(bytes[pos + 2], bytes[pos + 3]);
      if end > |bytes| then None
      else Some((BE16(bytes[pos], bytes[pos + 1]), bytes[pos + 4..end]))
  }

  /** The four header bytes of an attribute. */
  function AttrHead(kind: U16, len: U16): (h: seq<Byte>)
    ensures |h| == 4
  {
    [High(kind), Low(kind), High(len), Low(len)]
  }

  lemma SplitBE16(hi: Byte, lo: Byte)
    ensures High(BE16(hi, lo)) == hi && Low(BE16(hi, lo)) == lo
  {}

  /** An attribute that is read is exactly what its header and value serialise to. */
  lemma AttrAtDetermines(bytes: seq<Byte>, pos: nat)
    requires AttrAt(bytes, pos).Some?
    ensures var (kind, value) := AttrAt(bytes, pos).value;
            && pos + 4 + |value| <= |bytes| && |value| < 65536
            && bytes[pos..pos + 4 + |value|] == AttrHead(kind, |value|) + value
  {
    var (kind, value) := AttrAt(bytes, pos).value;
    SplitBE16(bytes[pos], bytes[pos + 1]);
    SplitBE16(bytes[pos + 2], bytes[pos + 3]);
    var end := pos + 4 + |value|;
    assert bytes[pos..end] == bytes[pos..pos + 4] + bytes[pos + 4..end];
    assert bytes[pos..pos + 4] == [bytes[pos], bytes[pos + 1], bytes[pos + 2], bytes[pos + 3]];
  }

  /** All complete attributes from pos on, in order: kind and value. */
  function Walk(bytes: seq<Byte>, pos: nat): seq<(U16, seq<Byte>)>
    decreases if pos <= |bytes| then |bytes| - pos else 0
  {
    match AttrAt(bytes, pos)
    case None => []
    case Some((kind, value)) =>
      [(kind, value)] + Walk(bytes, NextPos(pos, value))
  }

  function Views(attrs: seq<Attr>): (v: seq<(U16, seq<Byte>)>)
    ensures |v| == |attrs|
  {
    if attrs == [] then [] else [(attrs[0].kind, attrs[0].value)] + Views(attrs[1..])
  }

  /** The attributes read one after another from p on are exactly these. */
  predicate ReadsAs(bytes: seq<Byte>, p: nat, attrs: seq<Attr>)
    decreases |attrs|
  {
    if attrs == [] then AttrAt(bytes, p) == None
    else
      && AttrAt(bytes, p) == Some((attrs[0].kind, attrs[0].value))
      && ReadsAs(bytes, NextPos(p, attrs[0].value), attrs[1..])
  }

  lemma {:induction false} BytesReadAs(bytes: seq<Byte>, p: nat, attrs: seq<Attr>)
    requires AllWellFormed(attrs)
    requires p <= |bytes| && bytes[p..] == AllBytes(attrs)
    ensures ReadsAs(bytes, p, attrs)
    decreases |attrs|
  {
    if attrs == [] {
    } else {
      FirstAttr(bytes, p, attrs[0], AllBytes(attrs[1..]));
      BytesReadAs(bytes, NextPos(p, attrs[0].value), attrs[1..]);
    }
  }

  lemma {:induction false} WalkReads(bytes: seq<Byte>, p: nat, attrs: seq<Attr>)
    requires ReadsAs(bytes, p, attrs)
    ensures Walk(bytes, p) == Views(attrs)
    decreases |attrs|
  {
    if attrs == [] {
    } else {
      WalkReads(bytes, NextPos(p, attrs[0].value), attrs[1..]);
    }
  }

  /** Serialise then walk: any list of attributes, with any padding, is read back. */
  lemma WalkReadsBack(bytes: seq<Byte>, p: nat, attrs: seq<Attr>)
    requires AllWellFormed(attrs)
    requires p <= |bytes| && bytes[p..] == AllBytes(attrs)
    ensures Walk(bytes, p) == Views(attrs)
  {
    BytesReadAs(bytes, p, attrs);
    WalkReads(bytes, p, attrs);
  }

  /** Walk then serialise, on any bytes: what follows position p is the serialisation of a list of
      attributes that reads as the walk, then a tail in which no attribute is complete. Only the
      padding of the last attribute may be cut off, by the end of the bytes. */
  lemma {:induction false} WalkDetermines(bytes: seq<Byte>, p: nat)
    returns (attrs: seq<Attr>, cut: seq<Byte>, tail: seq<Byte>)
    requires p <= |bytes|
    ensures AllWellFormed(attrs) && Views(attrs) == Walk(bytes, p)
    ensures bytes[p..] + cut == AllBytes(attrs) + tail
    ensures |cut| < 4 && (cut == [] || tail == []) && AttrAt(tail, 0) == None
    decreases |bytes| - p
  {
    if AttrAt(bytes, p) == None {
      attrs, cut, tail := [], [], bytes[p..];
      NoneInSuffix(bytes, p);
    } else {
      var view := AttrAt(bytes, p).value;
      WalkStep(bytes, p, view);
      AttrAtDetermines(bytes, p);
      var end, next := p + 4 + |view.1|, NextPos(p, view.1);
      if next <= |bytes| {
        var first := Attr(view.0, view.1, bytes[end..next]);
        var rest;
        rest, cut, tail := WalkDetermines(bytes, next);
        attrs := [first] + rest;
        assert attrs[1..] == rest;
        SplitAt(bytes, p, end, next);
        Regroup(AttrBytes(first), bytes[next..], cut, AllBytes(rest), tail);
      } else {
        cut, tail := seq(next - |bytes|, _ => 0), [];
        var first := Attr(view.0, view.1, bytes[end..] + cut);
        attrs := [first];
        assert attrs[1..] == [];
        assert bytes[p..] == bytes[p..end] + bytes[end..];
        assert AllBytes(attrs) == AttrBytes(first);
        assert bytes[p..] + cut == AttrBytes(first) + tail;
      }
    }
  }

  lemma NoneInSuffix(bytes: seq<Byte>, p: nat)
    requires p <= |bytes| && AttrAt(bytes, p) == None
    ensures AttrAt(bytes[p..], 0) == None
  {}

  lemma SplitAt(bytes: seq<Byte>, p: nat, end: nat, next: nat)
    requires p <= end <= next <= |bytes|
    ensures bytes[p..] == bytes[p..end] + bytes[end..next] + bytes[next..]
  {}

  lemma Regroup(a: seq<Byte>, suffix: seq<Byte>, cut: seq<Byte>, rest: seq<Byte>, tail: seq<Byte>)
    requires suffix + cut == rest + tail
    ensures a + suffix + cut == (a + rest) + tail
  {
    assert a + suffix + cut == a + (suffix + cut);
    assert (a + rest) + tail == a + (rest + tail);
  }

  lemma {:induction false} ViewsAt(attrs: seq<Attr>, k: nat)
    requires k < |attrs|
    ensures Views(attrs)[k] == (attrs[k].kind, attrs[k].value)
  {
    if k == 0 {
    } else {
      ViewsAt(attrs[1..], k - 1);
    }
  }

  lemma FirstAttr(bytes: seq<Byte>, p: nat, a: Attr, rest: seq<Byte>)
    requires WellFormed(a) && p <= |bytes| && bytes[p..] == AttrBytes(a) + rest
    ensures AttrAt(bytes, p) == Some((a.kind, a.value))
    ensures NextPos(p, a.value) <= |bytes| && bytes[NextPos(p, a.value)..] == rest
  {
    SplitSuffix(bytes, p, AttrBytes(a), rest);
    AttrInSlice(bytes, p, a);
  }

  lemma SplitSuffix(bytes: seq<Byte>, p: nat, m: seq<Byte>, rest: seq<Byte>)
    requires p <= |bytes| && bytes[p..] == m + rest
    ensures p + |m| <= |bytes| && bytes[p..p + |m|] == m && bytes[p + |m|..] == rest
  {
    assert bytes[p..][..|m|] == m && bytes[p..][|m|..] == rest;
  }

  lemma WalkStep(bytes: seq<Byte>, pos: nat, view: (U16, seq<Byte>))
    requires AttrAt(bytes, pos) == Some(view)
    ensures Walk(bytes, pos) == [view] + Walk(bytes, NextPos(pos, view.1))
  {}

  lemma AttrInSlice(bytes: seq<Byte>, p: nat, a: Attr)
    requires WellFormed(a) && p + |AttrBytes(a)| <= |bytes|
    requires bytes[p..p + |AttrBytes(a)|] == AttrBytes(a)
    ensures AttrAt(bytes, p) == Some((a.kind, a.value))
  {
    var end := p + 4 + |a.value|;
    ThreeParts(bytes, p, AttrHead(a.kind, |a.value|), a.value, a.pad);
    HeadFields(bytes, p, a.kind, |a.value|);
    assert bytes[p + 4..end] == a.value;
  }

  lemma ThreeParts(bytes: seq<Byte>, p: nat, head: seq<Byte>, value: seq<Byte>, pad: seq<Byte>)
    requires p + |head| + |value| + |pad| <= |bytes|
    requires bytes[p..p + |head + value + pad|] == head + value + pad
    ensures bytes[p..p + |head|] == head
    ensures bytes[p + |head|..p + |head| + |value|] == value
  {
    var m := head + value + pad;
    assert m[..|head|] == head && m[|head|..|head| + |value|] == value;
    SliceOfSlice(bytes, p, |m|, 0, |head|);
    SliceOfSlice(bytes, p, |m|, |head|, |head| + |value|);
  }

  lemma SliceOfSlice(bytes: seq<Byte>, p: nat, n: nat, a: nat, b: nat)
    requires p + n <= |bytes| && a <= b <= n
    ensures bytes[p..p + n][a..b] == bytes[p + a..p + b]
  {
    var whole := bytes[p..p + n];
    var inner, direct := whole[a..b], bytes[p + a..p + b];
    forall k | 0 <= k < b - a
      ensures inner[k] == direct[k]
    {
      assert inner[k] == whole[a + k];
    }
    assert inner == direct;
  }

  lemma HeadFields(bytes: seq<Byte>, p: nat, kind: U16, len: U16)
    requires p + 4 <= |bytes| && bytes[p..p + 4] == AttrHead(kind, len)
    ensures BE16(bytes[p], bytes[p + 1]) == kind && BE16(bytes[p + 2], bytes[p + 3]) == len
  {
    SliceAt(bytes, p, AttrHead(kind, len));
  }

  lemma SliceAt(bytes: seq<Byte>, p: nat, m: seq<Byte>)
    requires p + |m| <= |bytes| && bytes[p..p + |m|] == m && |m| >= 4
    ensures bytes[p] == m[0] && bytes[p + 1] == m[1] && bytes[p + 2] == m[2] && bytes[p + 3] == m[3]
  {
    var s := bytes[p..p + |m|];
    assert s[0] == bytes[p] && s[1] == bytes[p + 1] && s[2] == bytes[p + 2] && s[3] == bytes[p + 3];
  }

  // ---------------------------------------------------------------- choosing the address

  /** What the last attribute of a kind decodes to: a later one replaces an earlier one even
      when it fails to decode. */
  function LastXor(views: seq<(U16, seq<Byte>)>, txn: TxnId): Option<SocketAddr> {
    if views == [] then None
    else
      var (kind, value) := views[|views| - 1];
      if kind == ATTR_XOR_MAPPED then DecodeXor(value, txn) else LastXor(views[..|views| - 1], txn)
  }

  function LastMapped(views: seq<(U16, seq<Byte>)>): Option<SocketAddr> {
    if views == [] then None
    else
      var (kind, value) := views[|views| - 1];
      if kind == ATTR_MAPPED then DecodeMapped(value) else LastMapped(views[..|views| - 1])
  }

  /** XOR-MAPPED-ADDRESS is preferred, MAPPED-ADDRESS is the fallback. */
  function Choose(views: seq<(U16, seq<Byte>)>, txn: TxnId): Outcome {
    match LastXor(views, txn)
    case Some(a) => Ok(a)
    case None =>
      match LastMapped(views)
      case Some(a) => Ok(a)
      case None => Err(NoMappedAddress)
  }

  /** What a datagram means: header checks in order, then the attributes. */
  function Meaning(buf: seq<Byte>, txn: TxnId): Outcome {
    if |buf| < HEADER_LEN then Err(Malformed(TooShort))
    else if buf[4..8] != COOKIE then Err(Malformed(BadCookie))
    else if BE16(buf[0], buf[1]) == BINDING_ERROR then Err(ErrorResponse(0))
    else if BE16(buf[0], buf[1]) != BINDING_RESPONSE then Err(Malformed(BadType))
    else if buf[8..20] != txn then Err(TxnMismatch)
    else
      var total := HEADER_LEN + BE16(buf[2], buf[3]);
      if |buf| < total then Err(Malformed(LengthExceedsBuffer))
      else Choose(Walk(buf[HEADER_LEN..total], 0), txn)
  }

  /** `parse_binding_response`. Every slice is in bounds and the loop terminates on any bytes. */
  method ParseBindingResponse(buf: seq<Byte>, expectedTxn: TxnId) returns (r: Outcome)
    ensures r == Meaning(buf, expectedTxn)
  {
    if |buf| < HEADER_LEN {
      return Err(Malformed(TooShort));
    }
    var msgType := BE16(buf[0], buf[1]);
    var msgLen := BE16(buf[2], buf[3]);
    if buf[4..8] != COOKIE {
      return Err(Malformed(BadCookie));
    }
    if msgType == BINDING_ERROR {
      return Err(ErrorResponse(0));
    }
    if msgType != BINDING_RESPONSE {
      return Err(Malformed(BadType));
    }
    if buf[8..20] != expectedTxn {
      return Err(TxnMismatch);
    }
    var totalLen := HEADER_LEN + msgLen;
    if |buf| < totalLen {
      return Err(Malformed(LengthExceedsBuffer));
    }
    r := WalkAttributes(buf[HEADER_LEN..totalLen], expectedTxn);
  }

  /** The loop's two variables. */
  datatype Found = Found(xorMapped: Option<SocketAddr>, mapped: Option<SocketAddr>)

  function Update(f: Found, view: (U16, seq<Byte>), txn: TxnId): Found {
    if view.0 == ATTR_XOR_MAPPED then f.(xorMapped := DecodeXor(view.1, txn))
    else if view.0 == ATTR_MAPPED then f.(mapped := DecodeMapped(view.1))
    else f
  }

  function UpdateAll(f: Found, views: seq<(U16, seq<Byte>)>, txn: TxnId): Found
    decreases |views|
  {
    if views == [] then f else UpdateAll(Update(f, views[0], txn), views[1..], txn)
  }

  lemma {:induction false} UpdateAllSnoc(f: Found, views: seq<(U16, seq<Byte>)>, last: (U16, seq<Byte>), txn: TxnId)
    ensures UpdateAll(f, views + [last], txn) == Update(UpdateAll(f, views, txn), last, txn)
    decreases |views|
  {
    if views == [] {
      assert (views + [last])[1..] == [];
    } else {
      assert (views + [last])[1..] == views[1..] + [last];
      UpdateAllSnoc(Update(f, views[0], txn), views[1..], last, txn);
    }
  }

  /** Updating from front to back leaves what the last attribute of each kind decodes to. */
  lemma {:induction false} UpdatesKeepLast(views: seq<(U16, seq<Byte>)>, txn: TxnId)
    ensures UpdateAll(Found(None, None), views, txn) == Found(LastXor(views, txn), LastMapped(views))
    decreases |views|
  {
    if views == [] {
    } else {
      var n := |views| - 1;
      UpdatesKeepLast(views[..n], txn);
      UpdateAllSnoc(Found(None, None), views[..n], views[n], txn);
      assert views == views[..n] + [views[n]];
    }
  }

  /** Reading one attribute is one update; the rest of the walk is the rest of the updates. */
  lemma UpdateFirst(f: Found, bytes: seq<Byte>, pos: nat, view: (U16, seq<Byte>), txn: TxnId)
    requires AttrAt(bytes, pos) == Some(view)
    ensures UpdateAll(f, Walk(bytes, pos), txn) ==
            UpdateAll(Update(f, view, txn), Walk(bytes, NextPos(pos, view.1)), txn)
  {
    WalkStep(bytes, pos, view);
    var w := Walk(bytes, pos);
    assert w[0] == view && w[1..] == Walk(bytes, NextPos(pos, view.1));
  }

  /** One attribute header and value; None where the loop breaks off. */
  method ReadAttr(attrs: seq<Byte>, pos: nat) returns (r: Option<(U16, seq<Byte>)>)
    requires pos + 4 <= |attrs|
    ensures r == AttrAt(attrs, pos)
  {
    var attrType := BE16(attrs[pos], attrs[pos + 1]);
    var attrLen := BE16(attrs[pos + 2], attrs[pos + 3]);
    var valueEnd := pos + 4 + attrLen;
    if valueEnd > |attrs| {
      return None;
    }
    return Some((attrType, attrs[pos + 4..valueEnd]));
  }

  /** The attribute loop. */
  method WalkAttributes(attrs: seq<Byte>, txn: TxnId) returns (r: Outcome)
    ensures r == Choose(Walk(attrs, 0), txn)
  {
    var mapped: Option<SocketAddr> := None;
    var xorMapped: Option<SocketAddr> := None;
    var pos := 0;
    ghost var all := UpdateAll(Found(None, None), Walk(attrs, 0), txn);
    while pos + 4 <= |attrs|
      invariant 0 <= pos
      invariant all == UpdateAll(Found(xorMapped, mapped), Walk(attrs, pos), txn)
      decreases |attrs| - pos
    {
      var attr := ReadAttr(attrs, pos);
      if attr.None? {
        break;
      }
      var (attrType, value) := attr.value;
      UpdateFirst(Found(xorMapped, mapped), attrs, pos, attr.value, txn);
      if attrType == ATTR_XOR_MAPPED {
        xorMapped := DecodeXor(value, txn);
      } else if attrType == ATTR_MAPPED {
        mapped := DecodeMapped(value);
      }
      pos := NextPos(pos, value);
    }
    assert Walk(attrs, pos) == [];
    UpdatesKeepLast(Walk(attrs, 0), txn);
    r := match xorMapped
      case Some(a) => Ok(a)
      case None => (match mapped case Some(a) => Ok(a) case None => Err(NoMappedAddress));
  }

  // ---------------------------------------------------------------- whole messages

  /** A Binding success response carrying the given attributes. */
  function Response(txn: TxnId, attrs: seq<Attr>): seq<Byte>
    requires AllWellFormed(attrs)
    requires |AllBytes(attrs)| < 65536
  {
    Header(txn, |AllBytes(attrs)|) + AllBytes(attrs)
  }

  function Header(txn: TxnId, len: U16): (h: seq<Byte>)
    ensures |h| == HEADER_LEN
  {
    [High(BINDING_RESPONSE), Low(BINDING_RESPONSE), High(len), Low(len)] + COOKIE + txn
  }

  /** Any transaction id, any attributes, any padding, any bytes after the message: the parser
      returns the last XOR-MAPPED-ADDRESS if it decodes, else the last MAPPED-ADDRESS if it
      decodes, else NoMappedAddress. */
  lemma ResponseMeans(txn: TxnId, attrs: seq<Attr>, trailer: seq<Byte>)
    requires AllWellFormed(attrs)
    requires |AllBytes(attrs)| < 65536
    ensures Meaning(Response(txn, attrs) + trailer, txn) == Choose(Views(attrs), txn)
  {
    var body := AllBytes(attrs);
    HeaderAccepted(txn, body, trailer);
    assert body[0..] == body;
    WalkReadsBack(body, 0, attrs);
  }

  /** A success header in front of any body: the body is what gets walked. */
  lemma HeaderAccepted(txn: TxnId, body: seq<Byte>, trailer: seq<Byte>)
    requires |body| < 65536
    ensures Meaning(Header(txn, |body|) + body + trailer, txn) == Choose(Walk(body, 0), txn)
  {
    var buf := Header(txn, |body|) + body + trailer;
    assert buf[..HEADER_LEN] == Header(txn, |body|);
    HeaderFields(buf, txn, |body|);
    assert buf[HEADER_LEN..HEADER_LEN + |body|] == body;
  }

  lemma HeaderFields(buf: seq<Byte>, txn: TxnId, len: U16)
    requires |buf| >= HEADER_LEN && buf[..HEADER_LEN] == Header(txn, len)
    ensures BE16(buf[0], buf[1]) == BINDING_RESPONSE && BE16(buf[2], buf[3]) == len
    ensures buf[4..8] == COOKIE && buf[8..20] == txn
  {
    var h := buf[..HEADER_LEN];
    assert h[0] == buf[0] && h[1] == buf[1] && h[2] == buf[2] && h[3] == buf[3];
    assert buf[4..8] == h[4..8] == COOKIE;
    assert buf[8..20] == h[8..20] == txn;
  }

  lemma {:induction false} LastXorSkips(views: seq<(U16, seq<Byte>)>, k: nat, txn: TxnId)
    requires k < |views| && views[k].0 == ATTR_XOR_MAPPED
    requires forall i :: k < i < |views| ==> views[i].0 != ATTR_XOR_MAPPED
    ensures LastXor(views, txn) == DecodeXor(views[k].1, txn)
    decreases |views|
  {
    if k == |views| - 1 {
    } else {
      LastXorSkips(views[..|views| - 1], k, txn);
    }
  }

  /** A server that puts the XOR-encoded address last among XOR-MAPPED-ADDRESS attributes, with
      any other attributes around it, gets that address back out of the parser. */
  lemma ReflexiveAddressRoundTrip(txn: TxnId, attrs: seq<Attr>, k: nat, addr: SocketAddr, trailer: seq<Byte>)
    requires AllWellFormed(attrs)
    requires |AllBytes(attrs)| < 65536
    requires ValidAddr(addr) && k < |attrs|
    requires attrs[k].kind == ATTR_XOR_MAPPED && attrs[k].value == EncodeXor(addr, txn)
    requires forall i :: k < i < |attrs| ==> attrs[i].kind != ATTR_XOR_MAPPED
    ensures Meaning(Response(txn, attrs) + trailer, txn) == Ok(addr)
  {
    ResponseMeans(txn, attrs, trailer);
    forall i | k <= i < |attrs| ensures Views(attrs)[i] == (attrs[i].kind, attrs[i].value) {
      ViewsAt(attrs, i);
    }
    LastXorSkips(Views(attrs), k, txn);
    XorRoundTrip(addr, txn, []);
    assert EncodeXor(addr, txn) + [] == EncodeXor(addr, txn);
  }

  // ---------------------------------------------------------------- refusals

  /** A header the parser accepts for transaction `txn`, with the whole body in the buffer. */
  ghost predicate Accepts(buf: seq<Byte>, txn: TxnId) {
    |buf| >= HEADER_LEN && exists len: U16 :: buf[..HEADER_LEN] == Header(txn, len) && HEADER_LEN + len <= |buf|
  }

  /** The attributes are looked at exactly when the header is a success response to our own request. */
  lemma ReadExactlyWhenAccepted(buf: seq<Byte>, txn: TxnId)
    ensures (Meaning(buf, txn).Ok? || Meaning(buf, txn) == Err(NoMappedAddress)) <==> Accepts(buf, txn)
  {
    if |buf| >= HEADER_LEN && exists len: U16 :: buf[..HEADER_LEN] == Header(txn, len) && HEADER_LEN + len <= |buf| {
      var len: U16 :| buf[..HEADER_LEN] == Header(txn, len) && HEADER_LEN + len <= |buf|;
      HeaderFields(buf, txn, len);
    } else if |buf| >= HEADER_LEN && Plausible(buf, txn) {
      HeaderFromFields(buf, txn);
    }
  }

  /** All header checks pass, read field by field. */
  predicate Plausible(buf: seq<Byte>, txn: TxnId)
    requires |buf| >= HEADER_LEN
  {
    && buf[4..8] == COOKIE && BE16(buf[0], buf[1]) == BINDING_RESPONSE && buf[8..20] == txn
    && HEADER_LEN + BE16(buf[2], buf[3]) <= |buf|
  }

  lemma HeaderFromFields(buf: seq<Byte>, txn: TxnId)
    requires |buf| >= HEADER_LEN && Plausible(buf, txn)
    ensures buf[..HEADER_LEN] == Header(txn, BE16(buf[2], buf[3]))
  {
    SplitBE16(buf[0], buf[1]);
    SplitBE16(buf[2], buf[3]);
    assert buf[..HEADER_LEN] == buf[..4] + buf[4..8] + buf[8..20];
    assert buf[..4] == [buf[0], buf[1], buf[2], buf[3]];
  }

  /** A response that would be read under its own transaction id is refused under any other, and for
      that reason. */
  lemma ForeignResponseIsMismatch(buf: seq<Byte>, own: TxnId, other: TxnId)
    requires Accepts(buf, own) && other != own
    ensures Meaning(buf, other) == Err(TxnMismatch)
  {
    var len: U16 :| buf[..HEADER_LEN] == Header(own, len) && HEADER_LEN + len <= |buf|;
    HeaderFields(buf, own, len);
  }

  /** Which refusal, for every datagram: too short, then the cookie, then an error response, then any other
      type, then the transaction id, then the length. Each is reported only if all before it pass. */
  lemma RefusalsInOrder(buf: seq<Byte>, txn: TxnId)
    ensures Meaning(buf, txn) == Err(Malformed(TooShort)) <==> |buf| < 20
    ensures |buf| >= 20 ==>
              var kind, cookie := 256 * (buf[0] as int) + buf[1], buf[4..8] == [0x21, 0x12, 0xA4, 0x42];
              && (Meaning(buf, txn) == Err(Malformed(BadCookie)) <==> !cookie)
              && (Meaning(buf, txn) == Err(ErrorResponse(0)) <==> cookie && kind == 0x0111)
              && (Meaning(buf, txn) == Err(Malformed(BadType)) <==> cookie && kind != 0x0111 && kind != 0x0101)
              && (Meaning(buf, txn) == Err(TxnMismatch) <==> cookie && kind == 0x0101 && buf[8..20] != txn)
  {}

  // ---------------------------------------------------------------- an RFC 5769 sample response

  function SampleTxn(): TxnId {
    [0xb7, 0xe7, 0xa7, 0x01, 0xbc, 0x34, 0xd6, 0x86, 0xfa, 0x87, 0xdf, 0xae]
  }

  /** SOFTWARE "test vector", padded with a space. */
  function SampleSoftware(): seq<Byte> {
    [0x80, 0x22, 0x00, 0x0b, 0x74, 0x65, 0x73, 0x74, 0x20, 0x76, 0x65, 0x63, 0x74, 0x6f, 0x72, 0x20]
  }

  /** Section 2.2 of RFC 5769, up to the integrity attributes: header, SOFTWARE, XOR-MAPPED-ADDRESS. */
  function SampleIPv4(): seq<Byte> {
    [0x01, 0x01, 0x00, 0x1c, 0x21, 0x12, 0xa4, 0x42,
     0xb7, 0xe7, 0xa7, 0x01, 0xbc, 0x34, 0xd6, 0x86, 0xfa, 0x87, 0xdf, 0xae]
    + SampleSoftware()
    + [0x00, 0x20, 0x00, 0x08, 0x00, 0x01, 0xa1, 0x47, 0xe1, 0x12, 0xa6, 0x43]
  }

  lemma TwoAttrs(a: Attr, b: Attr)
    requires WellFormed(a) && WellFormed(b)
    ensures AllWellFormed([a, b]) && AllBytes([a, b]) == AttrBytes(a) + AttrBytes(b)
    ensures Views([a, b]) == [(a.kind, a.value), (b.kind, b.value)]
  {
    assert [a, b][1..] == [b] && [b][1..] == [];
    assert AllBytes([b]) == AttrBytes(b) + [] == AttrBytes(b);
    assert Views([b]) == [(b.kind, b.value)];
  }

  /** The SOFTWARE attribute of the samples. */
  function Software(): (a: Attr)
    ensures WellFormed(a)
  {
    Attr(0x8022, [0x74, 0x65, 0x73, 0x74, 0x20, 0x76, 0x65, 0x63, 0x74, 0x6f, 0x72], [0x20])
  }

  lemma SoftwareBytes()
    ensures AttrBytes(Software()) == SampleSoftware()
  {}

  lemma LastIsXor(first: (U16, seq<Byte>), value: seq<Byte>, txn: TxnId)
    requires first.0 != ATTR_MAPPED
    ensures Choose([first, (ATTR_XOR_MAPPED, value)], txn) ==
            match DecodeXor(value, txn) case Some(a) => Ok(a) case None => Err(NoMappedAddress)
  {
    var views := [first, (ATTR_XOR_MAPPED, value)];
    assert views[..1] == [first] && |views| == 2;
    assert LastMapped(views) == LastMapped(views[..1]);
    assert LastMapped([first]) == LastMapped([first][..0]) == None;
  }

  /** A response holding SOFTWARE and one XOR-MAPPED-ADDRESS of the given value. */
  lemma SampleMeans(value: seq<Byte>)
    requires |value| % 4 == 0 && |value| < 65000
    ensures var body := SampleSoftware() + (AttrHead(0x0020, |value|) + value);
            Meaning(Header(SampleTxn(), |body|) + body + [], SampleTxn()) ==
            match DecodeXor(value, SampleTxn()) case Some(a) => Ok(a) case None => Err(NoMappedAddress)
  {
    var mapped := Attr(ATTR_XOR_MAPPED, value, []);
    var body := SampleSoftware() + (AttrHead(0x0020, |value|) + value);
    TwoAttrs(Software(), mapped);
    SoftwareBytes();
    assert AttrBytes(mapped) == AttrHead(0x0020, |value|) + value;
    assert body[0..] == body;
    WalkReadsBack(body, 0, [Software(), mapped]);
    HeaderAccepted(SampleTxn(), body, []);
    LastIsXor((0x8022, Software().value), value, SampleTxn());
  }

  lemma SamplePort()
    ensures Xor16(BE16(0xa1, 0x47), COOKIE_HIGH) == 32853
  {
    PortHigh();
    PortLow();
    SplitBE16(0xa1, 0x47);
  }

  lemma PortHigh()
    ensures Xor8(0xa1, 0x21) == 0x80
  {}

  lemma PortLow()
    ensures Xor8(0x47, 0x12) == 0x55
  {
    assert Nibble(0x47, 0x12) == 5;
    assert Nibble(0x47 / 16, 0x12 / 16) == 5;
  }

  lemma FirstOctets()
    ensures Xor8(0xe1, 0x21) == 192 && Xor8(0x12, 0x12) == 0
  {}

  lemma LastOctets()
    ensures Xor8(0xa6, 0xa4) == 2 && Xor8(0x43, 0x42) == 1
  {}

  /** The value of the sample's XOR-MAPPED-ADDRESS. */
  function SampleValue(): seq<Byte> { [0x00, 0x01, 0xa1, 0x47, 0xe1, 0x12, 0xa6, 0x43] }

  lemma SampleDecodes()
    ensures DecodeXor(SampleValue(), SampleTxn()) == Some(V4([192, 0, 2, 1], 32853))
  {
    SamplePort();
    assert SampleValue()[4..8] == [0xe1, 0x12, 0xa6, 0x43];
    SampleV4Octets(SampleValue()[4..8]);
  }

  /** The sample parses to 192.0.2.1, port 32853. */
  lemma SampleIPv4Parses()
    ensures Meaning(SampleIPv4(), SampleTxn()) == Ok(V4([192, 0, 2, 1], 32853))
  {
    var value := SampleValue();
    SampleMeans(value);
    SampleDecodes();
    SampleIPv4Bytes(value);
  }

  lemma SampleIPv4Bytes(value: seq<Byte>)
    requires value == [0x00, 0x01, 0xa1, 0x47, 0xe1, 0x12, 0xa6, 0x43]
    ensures var body := SampleSoftware() + (AttrHead(0x0020, |value|) + value);
            |body| == 28 && Header(SampleTxn(), |body|) + body + [] == SampleIPv4()
  {}

  lemma SampleV4Octets(x: seq<Byte>)
    requires x == [0xe1, 0x12, 0xa6, 0x43]
    ensures XorBytes(x, COOKIE) == [192, 0, 2, 1]
  {
    FirstOctets();
    LastOctets();
  }
}
