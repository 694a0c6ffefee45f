/** The order of name components is the byte order of their encodings. */
module CanonicalOrder {
  import opened Names
  import opened Tlv

  /** The first k bytes agree, and there the first string ends or has the smaller byte. */
  ghost predicate FirstDiffers(s: Bytes, t: Bytes, k: nat) {
    k <= |s| && k < |t| && (forall j :: 0 <= j < k ==> s[j] == t[j]) && (k < |s| ==> s[k] < t[k])
  }

  /** Byte by byte, a prefix first. */
  ghost predicate BytesBefore(s: Bytes, t: Bytes) {
    exists k: nat :: FirstDiffers(s, t, k)
  }

  lemma OneWay(s: Bytes, t: Bytes)
    ensures !(BytesBefore(s, t) && BytesBefore(t, s)) && !BytesBefore(s, s)
  {}

  lemma DifferLater(head: Bytes, s: Bytes, t: Bytes, k: nat)
    requires FirstDiffers(s, t, k)
    ensures FirstDiffers(head + s, head + t, |head| + k)
  {}

  lemma DifferThere(s: Bytes, t: Bytes, k: nat, x: Bytes, y: Bytes)
    requires FirstDiffers(s, t, k) && k < |s|
    ensures FirstDiffers(s + x, t + y, k)
  {}

  lemma {:induction false} BigEndianOrder(n: nat, m: nat, k: nat) returns (j: nat)
    requires n < m < Power256(k)
    ensures j < k && FirstDiffers(BigEndian(n, k), BigEndian(m, k), j)
  {
    var a, b := BigEndian(n, k), BigEndian(m, k);
    assert a[..k - 1] == BigEndian(n / 256, k - 1) && b[..k - 1] == BigEndian(m / 256, k - 1);
    if n / 256 < m / 256 {
      j := BigEndianOrder(n / 256, m / 256, k - 1);
    } else {
      j := k - 1;
    }
  }

  /** Numbers are encoded in their order. */
  lemma VarNumberOrder(n: nat, m: nat) returns (j: nat)
    requires n < m < TWO_64
    ensures j < |VarNumber(n)| && FirstDiffers(VarNumber(n), VarNumber(m), j)
  {
    Powers();
    j := 0;
    if n >= 253 && VarNumber(n)[0] == VarNumber(m)[0] {
      var k := |VarNumber(n)| - 1;
      j := BigEndianOrder(n, m, k);
      DifferLater([VarNumber(n)[0]], BigEndian(n, k), BigEndian(m, k), j);
      j := j + 1;
    }
  }

  lemma {:induction false} LexDiffers(less: (byte, byte) -> bool, a: Bytes, b: Bytes) returns (k: nat)
    requires Lex(less, a, b) && forall x, y :: less(x, y) <==> x < y
    ensures FirstDiffers(a, b, k)
  {
    k := 0;
    if a != [] && a[0] == b[0] {
      k := LexDiffers(less, a[1..], b[1..]);
      DifferLater([a[0]], a[1..], b[1..], k);
      assert a == [a[0]] + a[1..] && b == [b[0]] + b[1..];
      k := k + 1;
    }
  }

  ghost predicate IsEncodable(c: Component) {
    c.typ < TWO_64 && |c.value| < TWO_64
  }

  lemma LessIsBefore(a: Component, b: Component)
    requires IsEncodable(a) && IsEncodable(b) && ComponentLess(a, b)
    ensures BytesBefore(Encoding(ComponentBlock(a)), Encoding(ComponentBlock(b)))
  {
    var t, u := VarNumber(a.typ), VarNumber(b.typ);
    var l, m := VarNumber(|a.value|), VarNumber(|b.value|);
    var s, r := l + a.value, m + b.value;
    assert Encoding(ComponentBlock(a)) == t + s && Encoding(ComponentBlock(b)) == u + r;
    if a.typ < b.typ {
      var j := VarNumberOrder(a.typ, b.typ);
      DifferThere(t, u, j, s, r);
    } else if |a.value| < |b.value| {
      var j := VarNumberOrder(|a.value|, |b.value|);
      DifferThere(l, m, j, a.value, b.value);
      DifferLater(t, s, r, j);
    } else {
      var j := LexDiffers((x: byte, y: byte) => x < y, a.value, b.value);
      DifferLater(l, a.value, b.value, j);
      DifferLater(t, s, r, |l| + j);
    }
  }

  /** Canonical order: one component comes before another exactly when its encoding does, byte by byte. */
  lemma ComponentOrderIsByteOrder(a: Component, b: Component)
    requires IsEncodable(a) && IsEncodable(b)
    ensures ComponentLess(a, b) <==> BytesBefore(Encoding(ComponentBlock(a)), Encoding(ComponentBlock(b)))
  {
    OneWay(Encoding(ComponentBlock(a)), Encoding(ComponentBlock(b)));
    ComponentLessIsStrictTotal();
    if ComponentLess(a, b) { LessIsBefore(a, b); }
    if ComponentLess(b, a) { LessIsBefore(b, a); }
  }
}
