/** NDN names under their canonical order.

    A name is a sequence of components; components are ordered by type, then by length,
    then byte by byte ("Canonical Order" in the Name section of the NDN Packet Format
    Specification).  Names are ordered component by component, a prefix first. */
module Names {

  newtype byte = x: int | 0 <= x < 256

  const GENERIC_COMPONENT: nat := 8
  const DIGEST_SIZE: nat := 32

  datatype Component = Component(typ: nat, value: seq<byte>)

  type Name = seq<Component>

  type Digest = d: seq<byte> | |d| == DIGEST_SIZE witness seq(DIGEST_SIZE, _ => 0)

  // ----- strict lexicographic order over any strict total order -----

  ghost predicate StrictTotal<T(!new)>(less: (T, T) -> bool) {
    && (forall x :: !less(x, x))
    && (forall x, y :: x == y || less(x, y) || less(y, x))
    && (forall x, y, z :: less(x, y) && less(y, z) ==> less(x, z))
  }

  predicate Lex<T(==)>(less: (T, T) -> bool, a: seq<T>, b: seq<T>) {
    b != [] && (a == [] || less(a[0], b[0]) || (a[0] == b[0] && Lex(less, a[1..], b[1..])))
  }

  lemma {:induction false} LexIrreflexive<T(!new)>(less: (T, T) -> bool, a: seq<T>)
    requires StrictTotal(less)
    ensures !Lex(less, a, a)
  {
    if a != [] { LexIrreflexive(less, a[1..]); }
  }

  lemma {:induction false} LexTotal<T(!new)>(less: (T, T) -> bool, a: seq<T>, b: seq<T>)
    requires StrictTotal(less)
    ensures a == b || Lex(less, a, b) || Lex(less, b, a)
  {
    if a != [] && b != [] && a[0] == b[0] {
      LexTotal(less, a[1..], b[1..]);
      assert a == [a[0]] + a[1..] && b == [b[0]] + b[1..];
    }
  }

  lemma {:induction false} LexTransitive<T(!new)>(less: (T, T) -> bool, a: seq<T>, b: seq<T>, c: seq<T>)
    requires StrictTotal(less)
    requires Lex(less, a, b) && Lex(less, b, c)
    ensures Lex(less, a, c)
  {
    if a != [] && a[0] == b[0] == c[0] {
      LexTransitive(less, a[1..], b[1..], c[1..]);
    }
  }

  /** A proper prefix comes first. */
  lemma {:induction false} LexPrefix<T(!new)>(less: (T, T) -> bool, p: seq<T>, a: seq<T>)
    requires p < a
    ensures Lex(less, p, a)
  {
    if p != [] { LexPrefix(less, p[1..], a[1..]); }
  }

  /** The sequences that extend p form an interval. */
  lemma {:induction false} LexInterval<T(!new)>(less: (T, T) -> bool, p: seq<T>, a: seq<T>, b: seq<T>, c: seq<T>)
    requires StrictTotal(less)
    requires p <= a && p <= c && Lex(less, a, b) && Lex(less, b, c)
    ensures p <= b
  {
    if p != [] {
      assert a[0] == p[0] == c[0];
      assert b[0] == p[0];
      LexInterval(less, p[1..], a[1..], b[1..], c[1..]);
      assert b == [b[0]] + b[1..] && p == [p[0]] + p[1..];
    }
  }

  // ----- the two instances -----

  predicate ComponentLess(a: Component, b: Component) {
    a.typ < b.typ ||
    (a.typ == b.typ &&
     (|a.value| < |b.value| ||
      (|a.value| == |b.value| && Lex((x: byte, y: byte) => x < y, a.value, b.value))))
  }

  predicate NameLess(a: Name, b: Name) {
    Lex(ComponentLess, a, b)
  }

  lemma ComponentLessIsStrictTotal()
    ensures StrictTotal(ComponentLess)
  {
    var less := (x: byte, y: byte) => x < y;
    forall x: Component ensures !ComponentLess(x, x) {
      LexIrreflexive(less, x.value);
    }
    forall x: Component, y: Component ensures x == y || ComponentLess(x, y) || ComponentLess(y, x) {
      LexTotal(less, x.value, y.value);
    }
    forall x: Component, y: Component, z: Component | ComponentLess(x, y) && ComponentLess(y, z)
      ensures ComponentLess(x, z)
    {
      if x.typ == z.typ && |x.value| == |z.value| {
        LexTransitive(less, x.value, y.value, z.value);
      }
    }
  }

  /** Names are strictly and totally ordered. */
  lemma NameOrder(a: Name, b: Name)
    ensures !NameLess(a, a)
    ensures a == b || NameLess(a, b) || NameLess(b, a)
    ensures !(NameLess(a, b) && NameLess(b, a))
  {
    ComponentLessIsStrictTotal();
    LexIrreflexive(ComponentLess, a);
    LexTotal(ComponentLess, a, b);
    if NameLess(a, b) && NameLess(b, a) { LexTransitive(ComponentLess, a, b, a); }
  }

  /** Names are compared by their first different component; a prefix comes first. */
  lemma {:induction false} NameOrderMeaning(a: Name, b: Name)
    ensures NameLess(a, b) <==> exists k: nat :: FirstDiffer(a, b, k)
  {
    ComponentLessIsStrictTotal();
    if a != [] && b != [] && a[0] == b[0] {
      NameOrderMeaning(a[1..], b[1..]);
      forall k: nat ensures FirstDiffer(a[1..], b[1..], k) <==> FirstDiffer(a, b, k + 1) { DifferOneLater(a, b, k); }
      assert forall k: nat :: FirstDiffer(a, b, k) ==> k > 0 && FirstDiffer(a[1..], b[1..], k - 1);
    } else {
      assert NameLess(a, b) <==> FirstDiffer(a, b, 0);
      assert forall k: nat :: FirstDiffer(a, b, k) ==> k == 0;
    }
  }

  lemma DifferOneLater(a: Name, b: Name, k: nat)
    requires a != [] && b != [] && a[0] == b[0]
    ensures FirstDiffer(a[1..], b[1..], k) <==> FirstDiffer(a, b, k + 1)
  {
    if FirstDiffer(a[1..], b[1..], k) {
      forall j | 0 <= j < k + 1 ensures a[j] == b[j] { assert j > 0 ==> a[j] == a[1..][j - 1] && b[j] == b[1..][j - 1]; }
    }
  }

  ghost predicate FirstDiffer(a: Name, b: Name, k: nat) {
    k <= |a| && k < |b| && (forall j :: 0 <= j < k ==> a[j] == b[j]) && (k < |a| ==> ComponentLess(a[k], b[k]))
  }

  lemma NameTransitive(a: Name, b: Name, c: Name)
    requires NameLess(a, b) && NameLess(b, c)
    ensures NameLess(a, c)
  {
    ComponentLessIsStrictTotal();
    LexTransitive(ComponentLess, a, b, c);
  }

  /** No name before p extends p. */
  lemma BeforePrefix(p: Name, a: Name)
    requires NameLess(a, p)
    ensures !(p <= a)
  {
    NameOrder(a, p);
    if p <= a && p != a { LexPrefix(ComponentLess, p, a); }
  }

  /** Once past the names that extend p, no later name extends p. */
  lemma PastPrefix(p: Name, b: Name, c: Name)
    requires !NameLess(b, p) && !(p <= b) && NameLess(b, c)
    ensures !(p <= c)
  {
    NameOrder(p, b);
    ComponentLessIsStrictTotal();
    if p <= c { LexInterval(ComponentLess, p, p, b, c); }
  }

  /** Sorting keeps child prefixes sorted: taking the same number of leading components is monotone. */
  lemma {:induction false} TruncationMonotone(a: Name, b: Name, n: nat)
    requires NameLess(a, b)
    ensures !NameLess(Truncate(b, n), Truncate(a, n))
  {
    ComponentLessIsStrictTotal();
    if n == 0 || a == [] {
    } else if a[0] == b[0] {
      TruncationMonotone(a[1..], b[1..], n - 1);
      assert Truncate(a, n) == [a[0]] + Truncate(a[1..], n - 1);
      assert Truncate(b, n) == [b[0]] + Truncate(b[1..], n - 1);
    } else {
      assert Truncate(a, n)[0] == a[0] && Truncate(b, n)[0] == b[0];
    }
  }

  /** getPrefix(n) of a name: its first n components, or all of it when it is shorter. */
  function Truncate(a: Name, n: nat): Name {
    if n <= |a| then a[..n] else a
  }
}
