/** Type-length-value encoding, after the section "Type-Length-Value (TLV) Encoding" of the NDN Packet
    Format Specification, and the encoder that writes it back to front. */
module Tlv {
  import opened Names
  import opened Options

  type Bytes = seq<byte>

  type uint64 = x: nat | x < TWO_64 witness 0

  const TWO_64 := 0x1_0000_0000_0000_0000

  datatype Block = Block(typ: nat, value: Bytes)

  // ----- numbers -----

  /** The low k bytes of n, most significant first. */
  function BigEndian(n: nat, k: nat): (r: Bytes)
    ensures |r| == k
  {
    if k == 0 then [] else BigEndian(n / 256, k - 1) + [(n % 256) as byte]
  }

  function ReadBigEndian(s: Bytes): (n: nat)
    ensures n < Power256(|s|)
  {
    if s == [] then 0 else 256 * ReadBigEndian(s[..|s| - 1]) + s[|s| - 1] as nat
  }

  function Power256(k: nat): (p: nat)
    ensures p >= 1
  {
    if k == 0 then 1 else 256 * Power256(k - 1)
  }

  lemma {:induction false} ReadsBigEndian(n: nat, k: nat)
    requires n < Power256(k)
    ensures ReadBigEndian(BigEndian(n, k)) == n
  {
    if k > 0 {
      ReadsBigEndian(n / 256, k - 1);
      assert BigEndian(n, k)[..k - 1] == BigEndian(n / 256, k - 1);
    }
  }

  lemma Powers()
    ensures Power256(1) == 0x100 && Power256(2) == 0x1_0000 && Power256(4) == 0x1_0000_0000 && Power256(8) == TWO_64
  {
    assert Power256(2) == 256 * Power256(1) && Power256(4) == 256 * Power256(3) && Power256(3) == 256 * Power256(2);
    assert Power256(8) == 256 * Power256(7) && Power256(7) == 256 * Power256(6);
    assert Power256(6) == 256 * Power256(5) && Power256(5) == 256 * Power256(4);
  }

  /** Types and lengths: one byte, or a marker and 2, 4 or 8 bytes. */
  function VarNumber(n: nat): (r: Bytes)
    ensures 1 <= |r| <= 9
  {
    if n < 253 then [n as byte]
    else if n < 0x1_0000 then [253] + BigEndian(n, 2)
    else if n < 0x1_0000_0000 then [254] + BigEndian(n, 4)
    else [255] + BigEndian(n, 8)
  }

  /** The number at the head of s, and its size. */
  function ReadVarNumber(s: Bytes): (r: Option<(nat, nat)>)
    ensures r.Some? ==> 1 <= r.value.1 <= |s|
  {
    if s == [] then None
    else if s[0] < 253 then Some((s[0] as nat, 1))
    else
      var k := if s[0] == 253 then 2 else if s[0] == 254 then 4 else 8;
      if |s| < 1 + k then None else Some((ReadBigEndian(s[1..1 + k]), 1 + k))
  }

  lemma ReadsVarNumber(n: nat, rest: Bytes)
    requires n < TWO_64
    ensures ReadVarNumber(VarNumber(n) + rest) == Some((n, |VarNumber(n)|))
  {
    Powers();
    if n >= 253 {
      var k := if n < 0x1_0000 then 2 else if n < 0x1_0000_0000 then 4 else 8;
      ReadsBigEndian(n, k);
      assert (VarNumber(n) + rest)[1..1 + k] == BigEndian(n, k);
    }
  }

  /** Values of 1, 2, 4 or 8 bytes. */
  function NonNegativeInteger(n: nat): (r: Bytes)
    ensures |r| in {1, 2, 4, 8}
  {
    BigEndian(n, if n < 0x100 then 1 else if n < 0x1_0000 then 2 else if n < 0x1_0000_0000 then 4 else 8)
  }

  function ReadNonNegativeInteger(s: Bytes): Option<uint64> {
    Powers();
    if |s| in {1, 2, 4, 8} then Some(ReadBigEndian(s)) else None
  }

  lemma ReadsNonNegativeInteger(n: nat)
    requires n < TWO_64
    ensures ReadNonNegativeInteger(NonNegativeInteger(n)) == Some(n)
  {
    Powers();
    ReadsBigEndian(n, |NonNegativeInteger(n)|);
  }

  // ----- the bytes of a number -----

  lemma QuotientOfQuotient(n: nat, p: nat)
    requires p >= 1
    ensures n / 256 / p == n / (256 * p)
  {
    var a, b := n / 256, n / 256 / p;
    var r := (a % p) * 256 + n % 256;
    assert a == b * p + a % p;
    assert n == b * (256 * p) + r && 0 <= r < 256 * p;
    QuotientIs(n, 256 * p, b, r);
  }

  lemma QuotientIs(n: nat, d: nat, q: nat, r: nat)
    requires d >= 1 && r < d && n == q * d + r
    ensures n / d == q
  {
    SameQuotient(d, n / d, q, n % d, r);
  }

  lemma SameQuotient(d: nat, a: int, b: int, r: nat, s: nat)
    requires r < d && s < d && a * d + r == b * d + s
    ensures a == b
  {
    assert (a - b) * d == a * d - b * d && (b - a) * d == b * d - a * d;
    if a < b { AtLeast(d, b - a); }
    if b < a { AtLeast(d, a - b); }
  }

  lemma AtLeast(d: nat, k: int)
    requires k >= 1
    ensures k * d >= d
  {}

  /** Byte j of k: the digit of that weight. */
  lemma {:induction false} BigEndianAt(n: nat, k: nat, j: nat)
    requires j < k
    ensures BigEndian(n, k)[j] as nat == n / Power256(k - 1 - j) % 256
    decreases k
  {
    if j < k - 1 {
      BigEndianAt(n / 256, k - 1, j);
      QuotientOfQuotient(n, Power256(k - 2 - j));
    }
  }

  lemma LowerPowers()
    ensures Power256(0) == 1 && Power256(1) == 0x100 && Power256(2) == 0x1_0000 && Power256(3) == 0x100_0000
    ensures Power256(4) == 0x1_0000_0000 && Power256(5) == 0x100_0000_0000
    ensures Power256(6) == 0x1_0000_0000_0000 && Power256(7) == 0x100_0000_0000_0000
  {
    assert Power256(3) == 256 * Power256(2) && Power256(2) == 256 * Power256(1) && Power256(1) == 256 * Power256(0);
    assert Power256(5) == 256 * Power256(4) && Power256(4) == 256 * Power256(3);
    assert Power256(7) == 256 * Power256(6) && Power256(6) == 256 * Power256(5);
  }

  /** The digit of n that has the given weight. */
  function Digit(n: nat, weight: nat): byte
    requires weight >= 1
  {
    (n / weight % 256) as byte
  }

  lemma OneByte(n: nat)
    ensures BigEndian(n, 1) == [Digit(n, 1)]
  {
    LowerPowers();
    BigEndianAt(n, 1, 0);
  }

  lemma TwoBytes(n: nat)
    ensures BigEndian(n, 2) == [Digit(n, 0x100), Digit(n, 1)]
  {
    LowerPowers();
    BigEndianAt(n, 2, 0);
    BigEndianAt(n, 2, 1);
  }

  lemma FourBytes(n: nat)
    ensures BigEndian(n, 4) == [Digit(n, 0x100_0000), Digit(n, 0x1_0000), Digit(n, 0x100), Digit(n, 1)]
  {
    LowerPowers();
    forall j | 0 <= j < 4 ensures BigEndian(n, 4)[j] as nat == n / Power256(3 - j) % 256 { BigEndianAt(n, 4, j); }
  }

  lemma EightBytes(n: nat)
    ensures BigEndian(n, 8) ==
      [Digit(n, 0x100_0000_0000_0000), Digit(n, 0x1_0000_0000_0000), Digit(n, 0x100_0000_0000), Digit(n, 0x1_0000_0000),
       Digit(n, 0x100_0000), Digit(n, 0x1_0000), Digit(n, 0x100), Digit(n, 1)]
  {
    LowerPowers();
    forall j | 0 <= j < 8 ensures BigEndian(n, 8)[j] as nat == n / Power256(7 - j) % 256 { BigEndianAt(n, 8, j); }
  }

  /** Types and lengths on the wire. */
  lemma VarNumberBytes(n: nat)
    requires n < TWO_64
    ensures n <= 252 ==> VarNumber(n) == [n as byte]
    ensures 253 <= n <= 0xFFFF ==> VarNumber(n) == [253, Digit(n, 0x100), Digit(n, 1)]
    ensures 0x1_0000 <= n <= 0xFFFF_FFFF ==>
      VarNumber(n) == [254, Digit(n, 0x100_0000), Digit(n, 0x1_0000), Digit(n, 0x100), Digit(n, 1)]
    ensures 0x1_0000_0000 <= n ==>
      VarNumber(n) == [255, Digit(n, 0x100_0000_0000_0000), Digit(n, 0x1_0000_0000_0000), Digit(n, 0x100_0000_0000),
                       Digit(n, 0x1_0000_0000), Digit(n, 0x100_0000), Digit(n, 0x1_0000), Digit(n, 0x100), Digit(n, 1)]
  {
    TwoBytes(n);
    FourBytes(n);
    EightBytes(n);
  }

  /** Integers on the wire: the least of four sizes, most significant byte first. */
  lemma NonNegativeIntegerBytes(n: nat)
    requires n < TWO_64
    ensures n <= 0xFF ==> NonNegativeInteger(n) == [n as byte]
    ensures 0x100 <= n <= 0xFFFF ==> NonNegativeInteger(n) == [Digit(n, 0x100), Digit(n, 1)]
    ensures 0x1_0000 <= n <= 0xFFFF_FFFF ==>
      NonNegativeInteger(n) == [Digit(n, 0x100_0000), Digit(n, 0x1_0000), Digit(n, 0x100), Digit(n, 1)]
    ensures 0x1_0000_0000 <= n ==>
      NonNegativeInteger(n) == [Digit(n, 0x100_0000_0000_0000), Digit(n, 0x1_0000_0000_0000), Digit(n, 0x100_0000_0000),
                                Digit(n, 0x1_0000_0000), Digit(n, 0x100_0000), Digit(n, 0x1_0000), Digit(n, 0x100), Digit(n, 1)]
  {
    hide BigEndian;
    OneByte(n);
    TwoBytes(n);
    FourBytes(n);
    EightBytes(n);
  }

  // ----- blocks -----

  function Encoding(b: Block): (r: Bytes)
    ensures |r| >= 2
  {
    VarNumber(b.typ) + VarNumber(|b.value|) + b.value
  }

  function Encodings(bs: seq<Block>): Bytes {
    if bs == [] then [] else Encoding(bs[0]) + Encodings(bs[1..])
  }

  /** The block at the head of s, and its size; types are limited to 32 bits. */
  function ReadBlock(s: Bytes): (r: Option<(Block, nat)>)
    ensures r.Some? ==> 2 <= r.value.1 <= |s|
  {
    match ReadVarNumber(s)
    case None => None
    case Some((typ, n)) =>
      if typ >= 0x1_0000_0000 then None
      else
        match ReadVarNumber(s[n..])
        case None => None
        case Some((length, m)) =>
          if length > |s| - n - m then None else Some((Block(typ, s[n + m..n + m + length]), n + m + length))
  }

  /** The elements of a value, one after the other; None when the last one is cut off. */
  function Parse(s: Bytes): Option<seq<Block>> {
    if s == [] then Some([])
    else
      match ReadBlock(s)
      case None => None
      case Some((b, n)) =>
        match Parse(s[n..])
        case None => None
        case Some(bs) => Some([b] + bs)
  }

  ghost predicate Fits(b: Block) {
    b.typ < 0x1_0000_0000 && |b.value| < TWO_64
  }

  lemma ReadsBlock(b: Block, rest: Bytes)
    requires Fits(b)
    ensures ReadBlock(Encoding(b) + rest) == Some((b, |Encoding(b)|))
  {
    var t, l := VarNumber(b.typ), VarNumber(|b.value|);
    var s := Encoding(b) + rest;
    assert s == t + (l + (b.value + rest));
    ReadsVarNumber(b.typ, l + (b.value + rest));
    assert s[|t|..] == l + (b.value + rest);
    ReadsVarNumber(|b.value|, b.value + rest);
    assert s[|t| + |l|..|t| + |l| + |b.value|] == b.value;
  }

  /** Whatever blocks are written are read back. */
  lemma {:induction false} ParsesEncodings(bs: seq<Block>)
    requires forall b :: b in bs ==> Fits(b)
    ensures Parse(Encodings(bs)) == Some(bs)
  {
    if bs != [] {
      ReadsBlock(bs[0], Encodings(bs[1..]));
      ParsesEncodings(bs[1..]);
      assert Encodings(bs)[|Encoding(bs[0])|..] == Encodings(bs[1..]);
      assert bs == [bs[0]] + bs[1..];
    }
  }

  lemma EncodingsHead(b: Block, bs: seq<Block>)
    ensures Encodings([b] + bs) == Encoding(b) + Encodings(bs)
  {
    assert ([b] + bs)[1..] == bs;
  }

  lemma {:induction false} EncodingsAppend(a: seq<Block>, b: seq<Block>)
    ensures Encodings(a + b) == Encodings(a) + Encodings(b)
  {
    if a == [] {
      assert a + b == b;
    } else {
      var head, rest, tail := Encoding(a[0]), Encodings(a[1..]), Encodings(b);
      assert Encodings(a) == head + rest;
      EncodingsAppend(a[1..], b);
      EncodingsHead(a[0], a[1..] + b);
      assert a + b == [a[0]] + (a[1..] + b);
      Associative(head, rest, tail);
    }
  }

  lemma Associative(a: Bytes, b: Bytes, c: Bytes)
    ensures a + (b + c) == (a + b) + c
  {}

  // ----- the encoder -----

  /** What prepending w leaves: an estimator only counts, a buffer also writes. */
  ghost predicate Wrote(isEstimator: bool, before: Bytes, after: Bytes, w: Bytes) {
    after == if isEstimator then before else w + before
  }

  lemma WroteBoth(isEstimator: bool, a: Bytes, b: Bytes, c: Bytes, v: Bytes, w: Bytes)
    requires Wrote(isEstimator, a, b, v) && Wrote(isEstimator, b, c, w)
    ensures Wrote(isEstimator, a, c, w + v)
  {
    Associative(w, v, a);
  }

  /** Each part goes in front of the previous ones. */
  class Encoder {
    const isEstimator: bool
    var bytes: Bytes

    constructor (isEstimator: bool)
      ensures this.isEstimator == isEstimator && bytes == []
    {
      this.isEstimator, bytes := isEstimator, [];
    }

    method PrependByteArray(s: Bytes) returns (size: nat)
      modifies this
      ensures size == |s| && Wrote(isEstimator, old(bytes), bytes, s)
    {
      if !isEstimator {
        bytes := s + bytes;
      }
      size := |s|;
    }

    method PrependVarNumber(n: nat) returns (size: nat)
      modifies this
      ensures size == |VarNumber(n)| && Wrote(isEstimator, old(bytes), bytes, VarNumber(n))
    {
      size := PrependByteArray(VarNumber(n));
    }

    method PrependNonNegativeInteger(n: nat) returns (size: nat)
      modifies this
      ensures size == |NonNegativeInteger(n)| && Wrote(isEstimator, old(bytes), bytes, NonNegativeInteger(n))
    {
      size := PrependByteArray(NonNegativeInteger(n));
    }

    /** Length and type, in front of a value of that length. */
    method PrependHead(typ: nat, length: nat) returns (size: nat)
      modifies this
      ensures size == |VarNumber(typ)| + |VarNumber(length)|
      ensures Wrote(isEstimator, old(bytes), bytes, VarNumber(typ) + VarNumber(length))
    {
      size := PrependVarNumber(length);
      ghost var middle := bytes;
      var more := PrependVarNumber(typ);
      size := size + more;
      WroteBoth(isEstimator, old(bytes), middle, bytes, VarNumber(length), VarNumber(typ));
    }

    method PrependBlock(b: Block) returns (size: nat)
      modifies this
      ensures size == |Encoding(b)| && Wrote(isEstimator, old(bytes), bytes, Encoding(b))
    {
      size := PrependByteArray(b.value);
      ghost var middle := bytes;
      var more := PrependHead(b.typ, |b.value|);
      size := size + more;
      WroteBoth(isEstimator, old(bytes), middle, bytes, b.value, VarNumber(b.typ) + VarNumber(|b.value|));
    }
  }

  // ----- names -----

  const NAME: nat := 7

  function ComponentBlock(c: Component): Block { Block(c.typ, c.value) }

  function ComponentBlocks(n: Name): (r: seq<Block>)
    ensures |r| == |n|
  {
    seq(|n|, k requires 0 <= k < |n| => ComponentBlock(n[k]))
  }

  function NameBlock(n: Name): Block {
    Block(NAME, Encodings(ComponentBlocks(n)))
  }

  function ReadName(b: Block): Option<Name> {
    match Parse(b.value)
    case None => None
    case Some(bs) => Some(ComponentsOf(bs))
  }

  function ComponentsOf(bs: seq<Block>): (n: Name)
    ensures |n| == |bs|
  {
    seq(|bs|, k requires 0 <= k < |bs| => Component(bs[k].typ, bs[k].value))
  }

  ghost predicate NameFits(n: Name) {
    Fits(NameBlock(n)) && forall c :: c in n ==> Fits(ComponentBlock(c))
  }

  lemma ReadsName(n: Name)
    requires NameFits(n)
    ensures ReadName(NameBlock(n)) == Some(n)
  {
    forall b | b in ComponentBlocks(n) ensures Fits(b) {
      var k :| 0 <= k < |n| && ComponentBlocks(n)[k] == b;
      assert n[k] in n;
    }
    ParsesEncodings(ComponentBlocks(n));
    assert ComponentsOf(ComponentBlocks(n)) == n;
  }
}
